# UrbanTales front-end logic in Dafny

This project models the pure logic inside five React pages of the UrbanTales shop front end.

- **Seller's add-product form.** The media order is built from the image and video URL lists. This covers:
  - the auto-arrange interleave and its loop;
  - the manual concatenation;
  - the manual-mode reconciliation run by the effect;
  - the arrow swap, drag and drop, and removal;
  - the checks made before a product is posted, the payload's cover image, and the handling of the reply.
- **Password-reset confirm page.** It has the six-point strength score, the rating label, the local gate (passwords match, then score ≥ 3), and the outcome of the confirm request.
- **Password-reset OTP page.**
  - the resend cooldown, and when the resend button is offered;
  - the resend and verify handlers;
  - the digit filter on the code field;
  - the URL that carries the email and the code to the confirm page, including `encodeURIComponent` and the confirm page's `URLSearchParams` reading of it.
- **Edit-profile page.** It has the loaded record, the one-field update, and the save handler's token gate and storage update.
- **Profile page.** It has the guest record, the "Not provided" fallback, logout, and the avatar choice.
- **`getInitials`.** The two profile pages define it identically, so it is modelled once, in `Initials`.

Every network call is an input value. `Http.Reply` is `Ok(data) | NotOk(message) | Thrown`, which follows the pages' `res.ok` test, the reply body's message field (`msg`, `message` or `error`, depending on the page) and the `catch`. Navigation, alerts and storage writes are output values, so each handler is a pure function. Local storage is a `Storage` value holding the saved user and the token.

Modules: `Wrappers` (Option), `Text` (character classes, `trim`, `split`, ASCII `toUpperCase`), `Http`, `MediaOrder`, `ProductForm`, `PasswordPolicy`, `UrlCodec` (UTF-8, `encodeURIComponent`, form decoding, `URLSearchParams.get`), `OtpPage`, `ResetFlow`, `Initials` and `Profile`.

Where the page's own text and its code disagree, the model follows the code:

- **Confirm-page gate.** The page advises "Use min. 8 characters" (ResetPasswordConfirm.jsx:120), and its error message says "min. 8 chars" (line 59). `handleSubmit` itself has no length check: a score of 3 is enough (`PasswordPolicy.ShortPasswordPasses`). The page's only length floor is the inputs' `minLength={6}` (lines 128 and 138), which the browser enforces before `handleSubmit` runs.
- **Manual-mode reconciliation.** The `preserved` list and the "Drag to reorder (Manual mode)" hint show that a manual arrangement is meant to survive an upload, but the code rebuilds it in merge order. `MediaOrder.SyncOrder` models the code as written; the corrected reconciliation is modelled beside it (Findings).
- **`getInitials`.** It is modelled with its JavaScript behaviour intact:
  - a blank name throws;
  - an empty word gives the text `undefined`.

  It is not restricted to well-formed names.
- **Auto-arrange.** The page never calls `setAutoArrange`, so auto-arrange is always on. The manual-mode paths are modelled anyway, because they are part of the code.

## Model

| member | source | states |
|---|---|---|
| MediaOrder.BuildAutoMerged | Frontend/src/seller/pages/SellerAddProduct.jsx:74-91 | The `buildAutoMerged` loop, branch for branch, computes exactly the recursive interleave `AutoMerged`. It keeps i ≤ \|imgs\|, v ≤ \|vids\| and \|merged\| = i + v, and its `break` branch cannot be reached. |
| MediaOrder.Interleave | Frontend/src/seller/pages/SellerAddProduct.jsx:80-89 | What the loop still appends from a given turn: one entry per step, so \|images\| + \|videos\| entries in all. |
| MediaOrder.AutoMerged | Frontend/src/seller/pages/SellerAddProduct.jsx:74-91 | `buildAutoMerged()` has \|images\| + \|videos\| entries. It starts with the first image when there is one, because the first turn is an image's, and otherwise with the first video. |
| MediaOrder.AutoMergedSpec | Frontend/src/seller/pages/SellerAddProduct.jsx:74-91 | The auto-arranged order has \|images\| + \|videos\| entries. It is a permutation of all tagged images and videos, projects back to the image list and to the video list, and starts with the first image when there is one, otherwise with the first video. |
| MediaOrder.InterleaveProjects | Frontend/src/seller/pages/SellerAddProduct.jsx:80-85 | Each kind keeps its relative order: the images of the output are the input images in order, and likewise for videos. |
| MediaOrder.InterleavePermutes | Frontend/src/seller/pages/SellerAddProduct.jsx:80-89 | The loop's output contains every tagged image and every tagged video exactly once (multiset equality). |
| MediaOrder.AutoMergedIsAlternate | Frontend/src/seller/pages/SellerAddProduct.jsx:79-89 | Auto-arrange equals an independent definition: image, video, image, … while both lists last, then the rest of the longer list. |
| MediaOrder.AutoMergedExamples | Frontend/src/seller/pages/SellerAddProduct.jsx:79-89 | [i1, i2] with [v1] gives [i1, v1, i2]; no images with [v1, v2] gives [v1, v2]. |
| MediaOrder.Tag | Frontend/src/seller/pages/SellerAddProduct.jsx:95-96 | Tagging keeps the length and pairs each URL, at its own position, with the kind. |
| MediaOrder.ManualMerged | Frontend/src/seller/pages/SellerAddProduct.jsx:94-97 | The manual merge is every image at its own index, followed by every video. Its projections are the two lists. |
| MediaOrder.UrlSet | Frontend/src/seller/pages/SellerAddProduct.jsx:102 | The set holds exactly the URLs that occur in the previous order. |
| MediaOrder.Keep | Frontend/src/seller/pages/SellerAddProduct.jsx:104-105 | The filter keeps only entries whose URL is (or, for the second filter, is not) in the set, and never lengthens the sequence. |
| MediaOrder.KeepSplits | Frontend/src/seller/pages/SellerAddProduct.jsx:104-105 | The "preserved" and "added" filters together hold every entry of the manual merge exactly once. |
| MediaOrder.Reconcile | Frontend/src/seller/pages/SellerAddProduct.jsx:101-106 | The manual-mode branch as written is a permutation of the manual merge, with \|images\| + \|videos\| entries. |
| MediaOrder.ReconcileSpec | Frontend/src/seller/pages/SellerAddProduct.jsx:99-107 | Reconciliation is a permutation of the manual merge, with \|images\| + \|videos\| entries. Every entry whose URL was in the previous order comes before every entry whose URL was not, and each group keeps the manual-merge order. |
| MediaOrder.ReconcileLosesManualOrder | Frontend/src/seller/pages/SellerAddProduct.jsx:102-106 | As written, the previous order [v1, i1] plus a new image i2 becomes [i1, v1, i2], so the seller's arrangement is lost (Findings). |
| MediaOrder.ReconcileKeepingOrderSpec | Frontend/src/seller/pages/SellerAddProduct.jsx:102-106 | The corrected reconciliation: when URLs were only added, the previous order is kept untouched as a prefix, and only new URLs follow it. |
| MediaOrder.ReconcileKeepingOrderExample | Frontend/src/seller/pages/SellerAddProduct.jsx:102-106 | On the same input the corrected version gives [v1, i1, i2]. |
| MediaOrder.ReconcileKeepingOrder | Frontend/src/seller/pages/SellerAddProduct.jsx:102-106 | The corrected reconciliation (Findings) shows exactly the URLs of the current image and video lists: removed URLs are dropped and new ones are added. |
| MediaOrder.AutoMergedUrls | Frontend/src/seller/pages/SellerAddProduct.jsx:74-91 | Auto-arrange shows the same URLs as the plain merge of images and videos. |
| MediaOrder.SyncOrder | Frontend/src/seller/pages/SellerAddProduct.jsx:99-109 | The effect's new order, as written. In auto mode it is the auto-arrangement. In both modes it holds every tagged image and video exactly once, has \|images\| + \|videos\| entries and shows exactly the current URLs. In manual mode every entry with a previously known URL comes before every new one, and each group keeps the manual-merge order. |
| MediaOrder.SyncOrderKeepingOrder | Frontend/src/seller/pages/SellerAddProduct.jsx:99-109 | The effect with the corrected reconciliation (Findings). Auto mode is unchanged. Both modes show exactly the current URLs. In manual mode, when URLs were only added, the previous order survives as a prefix. |
| MediaOrder.FirstImageIsFirstUrl | Frontend/src/seller/pages/SellerAddProduct.jsx:161 | `merged.find(m => m.type === "image")?.url` is the first image URL of the order, or nothing when the order has no image. |
| MediaOrder.FirstImage | Frontend/src/seller/pages/SellerAddProduct.jsx:161 | `find(m => m.type === "image")?.url` finds nothing exactly when the order has no image. Otherwise it is the URL of an image entry with no image before it. |
| MediaOrder.MoveItem | Frontend/src/seller/pages/SellerAddProduct.jsx:133-139 | An out-of-range target leaves the order unchanged. Otherwise exactly positions idx and idx±1 are swapped, every other position is unchanged, and the length and entries are kept. |
| MediaOrder.MoveRightThenLeft | Frontend/src/seller/pages/SellerAddProduct.jsx:133-139 | Moving an entry right and then back left restores the order. Moving the last entry right changes nothing. |
| MediaOrder.DragMove | Frontend/src/seller/pages/SellerAddProduct.jsx:114-122 | `handleDragEnd` keeps the length and puts the dragged entry at the drop index, and an unset drop index reads as 0. |
| MediaOrder.DragMoveSpec | Frontend/src/seller/pages/SellerAddProduct.jsx:114-122 | A drag keeps the length and the multiset of entries and puts the dragged entry at the drop index. A drop index that was never set reads as 0. The other entries keep their relative order. |
| MediaOrder.DragBack | Frontend/src/seller/pages/SellerAddProduct.jsx:114-122 | Dragging the entry back from its new index to its old one restores the order. |
| ProductForm.AddUrl | Frontend/src/seller/pages/SellerAddProduct.jsx:67-71 | An empty URL changes nothing. Any other URL is appended to its own list, and the other list and every other field (name, category, description, stock, price, delivery) are unchanged. |
| ProductForm.Without | Frontend/src/seller/pages/SellerAddProduct.jsx:127-128 | Filtering removes every copy of the URL and keeps every other URL as often as before. The list gets shorter exactly when the URL was in it. |
| ProductForm.Settle | Frontend/src/seller/pages/SellerAddProduct.jsx:99-109 | The effect leaves the form and the mode alone. It fires exactly when the number of images, the number of videos or the mode changed, and then sets the order `SyncOrder` computes: every tagged image and video once, and the auto-arrangement in auto mode. Otherwise the editor is unchanged. |
| ProductForm.AddUrlAutoSettles | Frontend/src/seller/pages/SellerAddProduct.jsx:67-71 | In auto mode, once the effect has run after a URL was added, the order is the arrangement of the new lists and contains the new URL. |
| ProductForm.RemoveAt | Frontend/src/seller/pages/SellerAddProduct.jsx:124-131 | An index with no entry changes nothing. Otherwise the entry's URL leaves its own list, and the other list and every other field of the form are unchanged. Manual mode removes exactly the entry at idx. Auto mode sets the arrangement of the form as it was before the removal. |
| ProductForm.RemoveAtAutoSettles | Frontend/src/seller/pages/SellerAddProduct.jsx:124-131 | In auto mode, once the effect has run after a removal, the order is the arrangement of the new lists, the removed URL is gone from it, and it is shorter. |
| ProductForm.FirstError | Frontend/src/seller/pages/SellerAddProduct.jsx:147-151 | The reported error's check fails and every earlier check passes; no error means all five checks pass. The checks are login, trimmed name, category, stock > 0 and price > 0. |
| ProductForm.Submit | Frontend/src/seller/pages/SellerAddProduct.jsx:143-167 | A submit is rejected exactly when a check fails, with that check's error. A posted payload has a seller id, a non-empty trimmed name, the form's stock and price (both positive), the form's lists, category, description and delivery, the auto-arrangement (auto mode) or the current order (manual mode), and the cover taken from the payload's own order. |
| ProductForm.CoverImageInAutoMode | Frontend/src/seller/pages/SellerAddProduct.jsx:161 | In auto mode the payload's `image` is the first image URL, or "" when there are no images. |
| ProductForm.CoverImage | Frontend/src/seller/pages/SellerAddProduct.jsx:161 | The cover is `images[0]` when that is non-empty. Otherwise it is the first image URL of the order, or "" when the order holds no image. |
| ProductForm.HandleReply | Frontend/src/seller/pages/SellerAddProduct.jsx:169-178 | Success and navigation happen exactly on creation, and logout exactly on status 401. The toast is "Product added!" on creation. On a refusal it is the server's non-empty `error`, else "Request failed with status code N". On a failed request it is the failure's message, else "Submit failed.". Saving ends false. |
| PasswordPolicy.Strength | Frontend/src/Pages/ResetPasswordConfirm.jsx:9-18 | The score lies in [0, 6]. The two length checks read `.length`, which counts UTF-16 code units (`Text.JsLength`). A `.length` ≥ 12 earns at least 2, and a `.length` < 8 caps the score at 4. |
| Text.JsLength | Frontend/src/Pages/ResetPasswordConfirm.jsx:11-16 | `.length` lies between the number of characters and twice that number. |
| Text.JsLengthAppend | Frontend/src/Pages/ResetPasswordConfirm.jsx:11-16 | The `.length` of a concatenation is the sum of the two lengths. |
| Text.JsLengthIsCountIffBmp | Frontend/src/Pages/ResetPasswordConfirm.jsx:11-16 | `.length` equals the number of characters exactly when none lies outside the Basic Multilingual Plane. |
| PasswordPolicy.SurrogatePairsCountTwice | Frontend/src/Pages/ResetPasswordConfirm.jsx:11-24 | "a1" followed by three emoji has six characters but a `.length` of 8. It therefore scores 3 and rates Good. |
| PasswordPolicy.StrengthMonotone | Frontend/src/Pages/ResetPasswordConfirm.jsx:9-18 | Appending characters never lowers the score. |
| PasswordPolicy.ClassesPersist | Frontend/src/Pages/ResetPasswordConfirm.jsx:12-15 | A character class found in a password is still found after more text is appended. |
| PasswordPolicy.OtherCharacterAddsOnlyLength | Frontend/src/Pages/ResetPasswordConfirm.jsx:11-16 | A character that is not a letter, a digit or one of `@$!%*?&` adds only the length points it earns. It adds 1 to `.length`, or 2 when it lies outside the Basic Multilingual Plane. |
| PasswordPolicy.SymbolEarnsPoint | Frontend/src/Pages/ResetPasswordConfirm.jsx:15 | One of `@$!%*?&` added to a password without one raises the score. |
| PasswordPolicy.PasswordRating | Frontend/src/Pages/ResetPasswordConfirm.jsx:20-26 | The labels, as if-and-only-ifs: Weak for ≤ 2, Good for 3, Better for 4–5, Strong for ≥ 6. The final fallback cannot be reached. |
| PasswordPolicy.RatingMonotone | Frontend/src/Pages/ResetPasswordConfirm.jsx:20-26 | A higher score never gets a lower label. |
| PasswordPolicy.ConfirmGate | Frontend/src/Pages/ResetPasswordConfirm.jsx:53-72 | Mismatched entries give the "do not match" message, whatever the strength. Matching entries scoring < 3 give the "stronger password" message. A request is built exactly when both checks pass, and it carries (email, otp, newPassword). |
| PasswordPolicy.GateBlocksExactlyWeak | Frontend/src/Pages/ResetPasswordConfirm.jsx:58-62 | With matching entries, the gate blocks exactly the passwords the meter labels Weak. |
| PasswordPolicy.ShortPasswordPasses | Frontend/src/Pages/ResetPasswordConfirm.jsx:58-62 | Upper case, lower case and a digit pass `handleSubmit`'s gate at any length: the handler has no eight-character minimum. |
| PasswordPolicy.ConfirmOutcome | Frontend/src/Pages/ResetPasswordConfirm.jsx:75-89 | ok gives success and a redirect to /login. Not-ok gives the server `msg`, or "❌ Reset failed.". A throw gives "⚠️ Server error. Try again.". Loading ends false every time. |
| PasswordPolicy.HandleConfirm | Frontend/src/Pages/ResetPasswordConfirm.jsx:51-90 | No request is sent exactly when the gate blocks, and then the page shows an error and stays put. Otherwise the request carries the password, and the reply decides the view. |
| OtpPage.Initial | Frontend/src/Pages/ResetPasswordOTP.jsx:9-14 | The page starts with an empty code, the timer at 60 and nothing in flight. |
| OtpPage.Tick | Frontend/src/Pages/ResetPasswordOTP.jsx:20-25 | A tick lowers a positive timer by one and leaves 0 alone, so the timer never goes negative. |
| OtpPage.TicksCountDown | Frontend/src/Pages/ResetPasswordOTP.jsx:20-25 | After n ticks the timer reads max(0, timer − n). |
| OtpPage.ResendLockedForCooldown | Frontend/src/Pages/ResetPasswordOTP.jsx:147-167 | From the initial page, the resend button is offered exactly once 60 ticks have passed. |
| OtpPage.ResendShown | Frontend/src/Pages/ResetPasswordOTP.jsx:147-167 | The countdown is shown while the timer is positive, and the resend button once it reads 0. |
| OtpPage.ResendEnabled | Frontend/src/Pages/ResetPasswordOTP.jsx:153-158 | The button is clickable only while no resend is in flight. |
| OtpPage.Resend | Frontend/src/Pages/ResetPasswordOTP.jsx:75-105 | Success resets the timer to 60 with a success message. Not-ok and thrown leave the timer unchanged, with the server `msg` or "Failed to resend OTP." and the server-error text respectively. Resending ends false. |
| OtpPage.FilterOtp | Frontend/src/Pages/ResetPasswordOTP.jsx:132 | An all-digit input is unchanged. Otherwise the result is exactly one character shorter. |
| OtpPage.FilterDeletesFirstNonDigit | Frontend/src/Pages/ResetPasswordOTP.jsx:132 | The filter deletes the first non-digit and keeps every other character in place (no global flag). |
| OtpPage.TypedCharacterKeepsDigits | Frontend/src/Pages/ResetPasswordOTP.jsx:132 | Typing one character into an all-digit field appends it if it is a digit and drops it otherwise, so the field stays all digits. |
| OtpPage.PasteKeepsLaterNonDigits | Frontend/src/Pages/ResetPasswordOTP.jsx:132 | Text with two leading non-digits keeps the second one, so the field is not all digits. |
| OtpPage.Verify | Frontend/src/Pages/ResetPasswordOTP.jsx:36-73 | Navigation happens exactly on ok, to `/reset-password/confirm?email=<encoded email>&otp=<code>`. Not-ok shows the server `msg`, or "❌ Invalid or expired OTP.". A throw shows "⚠️ Server error. Try again later.". Loading is false every time. |
| OtpPage.HandOffRoundTrip | Frontend/src/Pages/ResetPasswordOTP.jsx:56-60 | The confirm page's `URLSearchParams` reads back exactly the email and the all-digit code that the OTP page put into the URL. |
| OtpPage.MissingEmailBecomesNull | Frontend/src/Pages/ResetPasswordOTP.jsx:57-59 | A page opened without an email sends `encodeURIComponent(null)`, which the confirm page reads as the text "null". |
| OtpPage.NextSearch | Frontend/src/Pages/ResetPasswordOTP.jsx:56-60 | The query string the OTP page appends: the email run through `encodeURIComponent` (the text "null" when missing), then the code as typed. `HandOffRoundTrip` reads it back. |
| OtpPage.NextUrl | Frontend/src/Pages/ResetPasswordOTP.jsx:56-60 | The confirm path `/reset-password/confirm` followed by that query string. |
| OtpPage.TwoParams | Frontend/src/Pages/ResetPasswordConfirm.jsx:35-37 | In a query of two `name=value` pairs, each name reads back its own decoded value. |
| ResetFlow.ConfirmCarriesVerifiedCredentials | Frontend/src/Pages/ResetPasswordConfirm.jsx:35-72 | For an all-digit code and a password that passes the gate, the confirm request carries exactly the email and code used on the OTP page. |
| UrlCodec.EncodeComponent | Frontend/src/Pages/ResetPasswordOTP.jsx:57-59 | Every output character is unreserved, `%` or a hex digit. |
| UrlCodec.EncodedIsQuerySafe | Frontend/src/Pages/ResetPasswordOTP.jsx:57-59 | An encoded email contains no `&`, `=`, `+` or `#`, so it stays one query value. |
| UrlCodec.Utf8RoundTrip | Frontend/src/Pages/ResetPasswordOTP.jsx:57-59 | Decoding the UTF-8 bytes that `encodeURIComponent` escapes gives back the string. |
| UrlCodec.EncodeRoundTrip | Frontend/src/Pages/ResetPasswordConfirm.jsx:35-37 | Form-decoding an encoded component gives back the original string. |
| UrlCodec.PlainDecodesToItself | Frontend/src/Pages/ResetPasswordConfirm.jsx:35-37 | Text of unreserved characters, such as a parameter name or a digit code, decodes to itself. |
| UrlCodec.SplitPairAt | Frontend/src/Pages/ResetPasswordConfirm.jsx:35-37 | A pair splits at its first `=` into the name and the value. |
| UrlCodec.SearchParamsGet | Frontend/src/Pages/ResetPasswordConfirm.jsx:35-37 | `new URLSearchParams(search).get(name)`: a leading `?` is dropped, the rest is split at `&`, and the first pair with that name gives its form-decoded value. `TwoParams` and `HandOffRoundTrip` state what it reads back. |
| UrlCodec.FormDecode | Frontend/src/Pages/ResetPasswordConfirm.jsx:35-37 | Form decoding turns `+` into a space and `%XX` into a byte, then reads the bytes as UTF-8. `EncodeRoundTrip` proves it inverts `encodeURIComponent`. |
| Text.JoinSplit | Frontend/src/Pages/editprofile.jsx:70 | Joining the parts of `split(" ")` gives back the string. |
| Text.SplitJoin | Frontend/src/Pages/editprofile.jsx:70 | Splitting a join of space-free parts gives back the parts. |
| Text.TrimEmptyIff | Frontend/src/Pages/editprofile.jsx:70 | `trim()` gives "" exactly when the string is all white space. |
| Text.Trim | Frontend/src/Pages/editprofile.jsx:70 | `trim()` returns the string with its leading and trailing JavaScript white space removed. The result is a slice `s[k..k+|r|]` with only white space before and after it, and it neither starts nor ends with white space. |
| Text.Split | Frontend/src/Pages/editprofile.jsx:70 | `split(" ")` returns at least one part, and no part contains the separator. |
| Initials.GetInitials | Frontend/src/Pages/editprofile.jsx:69-74 | An undefined or null name gives "U". Any letters produced are non-empty and contain no lower-case letter. |
| Initials.OneWordInitial | Frontend/src/Pages/editprofile.jsx:72 | A single-word name gives its upper-cased first character. |
| Initials.PaddingIgnored | Frontend/src/Pages/editprofile.jsx:69-74 | White space around a name does not change its initials. |
| Initials.PaddedOneWordInitial | Frontend/src/Pages/editprofile.jsx:70-72 | A single word with any white space around it gives its upper-cased first character. |
| Initials.ManyWordsInitials | Frontend/src/Pages/editprofile.jsx:73 | Two or more single-space-separated words give the upper-cased first characters of the first two words; later words are ignored. |
| Initials.ThrowsIffBlank | Frontend/src/Pages/profilepage.jsx:29-34 | The function throws exactly when the name is empty or all white space (Findings). |
| Initials.DoubleSpaceQuirk | Frontend/src/Pages/profilepage.jsx:30-33 | Two spaces between words give the first initial followed by "UNDEFINED". |
| Initials.SafeInitials | Frontend/src/Pages/editprofile.jsx:69-74 | The corrected initials: never empty, equal to `getInitials` wherever it does not throw, and "U" for a blank name. |
| Initials.SafeInitialsOnBlank | Frontend/src/Pages/editprofile.jsx:69-74 | On a blank name the original throws and the corrected version gives "U". |
| Profile.Blank | Frontend/src/Pages/editprofile.jsx:13-23 | The edit page starts with every field empty and no picture. |
| Profile.LoadUser | Frontend/src/Pages/editprofile.jsx:25-34 | A saved user replaces the whole record; with none saved, the blank record stays. |
| Profile.HandleChange | Frontend/src/Pages/editprofile.jsx:36-39 | The named field takes the typed value, every other field is unchanged, and the picture is never touched. |
| Profile.ChangeBack | Frontend/src/Pages/editprofile.jsx:36-39 | Typing a field's old value back restores the record. |
| Profile.SaveRequestOf | Frontend/src/Pages/editprofile.jsx:42-53 | A request is built exactly when the token is present and non-empty, and it carries that token and the whole record. |
| Profile.HandleSave | Frontend/src/Pages/editprofile.jsx:41-67 | Without a token the alert is "Please login first!" and nothing changes. The page navigates to /profile exactly on ok, and only then does storage take the returned user. Not-ok shows the server message or "❌ Update failed."; a throw shows "❌ Something went wrong.". |
| Profile.SaveThenShow | Frontend/src/Pages/editprofile.jsx:57-60 | After a successful save, the profile page shows the returned user and the edit page loads it. |
| Profile.Guest | Frontend/src/Pages/profilepage.jsx:12-22 | The guest record is "Guest User", "guest@example.com", phone "0000000000", address "Not added yet", date of birth and gender "N/A", role "User", bio "No bio added yet.", with no picture. |
| Profile.DisplayedUser | Frontend/src/Pages/profilepage.jsx:12-22 | The stored user is shown when there is one, otherwise the guest record. |
| Profile.Logout | Frontend/src/Pages/profilepage.jsx:36-39 | Logout clears the user and the token and goes to /WelcomePage. |
| Profile.LogoutShowsGuest | Frontend/src/Pages/profilepage.jsx:36-39 | After logout the profile page shows the guest and saving is refused. |
| Profile.Info | Frontend/src/Pages/profilepage.jsx:128-135 | A non-empty value is shown as is, and an empty one as "Not provided". |
| Profile.AvatarOf | Frontend/src/Pages/profilepage.jsx:64-74 | The picture is shown exactly when `profileImage` is non-empty; otherwise the badge shows `getInitials(fullName)`. |
| Profile.AvatarCrashesIffBlank | Frontend/src/Pages/profilepage.jsx:64-74 | Rendering the avatar throws exactly when there is no picture and the name is blank. |
| Profile.GuestAvatar | Frontend/src/Pages/profilepage.jsx:12-22 | The guest's avatar reads "GU". |
| Profile.EditPageWithoutSavedUserCrashes | Frontend/src/Pages/editprofile.jsx:97-104 | With no saved user, the edit page's avatar throws (Findings). |
| Profile.SafeAvatarOf | Frontend/src/Pages/editprofile.jsx:97-104 | The corrected avatar never throws, agrees with the original wherever the original renders, and shows "U" otherwise. |
| Profile.SafeEditPageShowsU | Frontend/src/Pages/editprofile.jsx:97-104 | With the correction, the edit page with no saved user shows "U". |

## Left out

- Backend/utils/SellersendOtpMail.js is a wrapper around the SendGrid mail API (a foreign call) plus an HTML template, so it is not part of this model.
- Network requests, file upload, toasts, alerts and router navigation are out of scope. A reply is an input datatype, and a navigation or message is an output value.
- `setTimeout`/`setInterval` timing, the message fade, and the 700/1200/1500 ms redirect delays are left out. The cooldown is an abstract tick, and a redirect is the target it eventually opens.
- `localStorage` and JSON parsing are left out. Storage is a value holding the optional user and token. A stored record with missing fields, or `data.user` being undefined, is not modelled.
- ProductForm.Form: `Number(form.stock)` and `Number(form.price)` are taken as already-parsed reals. NaN, which passes the `<= 0` tests, and floating-point rounding are not modelled.
- Browser-enforced input attributes are not modelled: `maxLength={6}` and `required` on the code field, `minLength={6}` and `required` on both password fields of the confirm page, and the HTML form's `required` fields.
- Text.ToUpper: only ASCII letters are upper-cased. JavaScript's full Unicode case mapping is not modelled.
- Text.Trim: strings are sequences of code points, not UTF-16 units. This changes nothing for `trim`, because every white-space character lies inside the Basic Multilingual Plane. `.length` is modelled as `Text.JsLength`, which counts two for a character outside that plane.
- OtpPage.FilterOtp: the model removes a whole character outside the Basic Multilingual Plane. JavaScript's `/\D/` matches a single UTF-16 unit, so the page removes only one surrogate half.
- Initials.GetInitials: for a word starting with a character outside the Basic Multilingual Plane, the model takes the whole character. JavaScript's `[0]` reads a single UTF-16 unit, which is one surrogate half.
- MediaOrder.SyncOrderKeepingOrder: the corrected reconciliation matches entries by URL. A URL listed twice in the current lists appears once when it was already in the previous order, so this version promises the set of URLs rather than the permutation that `MediaOrder.SyncOrder` keeps.
- UrlCodec.Utf8Decode: an invalid byte becomes one U+FFFD and decoding resumes at the next byte. This is a simplification of the WHATWG maximal-subpart rule, and it is only reached on hand-written query strings.
- MediaOrder.MoveItem and MediaOrder.DragMove require indices of existing entries. The page only calls them with the index of a rendered tile, except for the unset drop target, which is modelled.
- CATEGORY_LIST is only the option list of a select, and the category is never checked against it.
- ProductForm.HandleReply: axios's own failure text is reduced to "Request failed with status code N" for a reply, and to the given reason for a failed request.
- The upload path (`handleFileChange`) is left out: it is `AddUrl` after an upload, which is a foreign call.
- The seller authentication context is represented only by the seller id it supplies.

## Findings

| source | as written | input that shows it | evidently intended | confidence | as-written member | corrected member |
|---|---|---|---|---|---|---|
| Frontend/src/Pages/editprofile.jsx:13-23 | The edit page starts from a record whose `fullName` is "". With nothing saved, it renders `getInitials("")`: `"".trim().split(" ")` is `[""]`, and `""[0].toUpperCase()` throws, so the page crashes. The same happens on both pages for any saved blank name. | no saved user (or `fullName: "   "`) | show "U" for a missing or blank name, as for an undefined one | not executed | Initials.ThrowsIffBlank | Initials.SafeInitials |
| Frontend/src/seller/pages/SellerAddProduct.jsx:102-106 | Manual-mode reconciliation rebuilds the known entries in manual-merge order (all images, then all videos) instead of the seller's order. Any addition therefore undoes the seller's rearrangement. It is latent, because no control turns auto-arrange off. | order [v1, i1], then image i2 added: result [i1, v1, i2] | keep the previous order and append the new entries: [v1, i1, i2]; `MediaOrder.SyncOrderKeepingOrder` is the effect with this fix | not executed | MediaOrder.ReconcileLosesManualOrder | MediaOrder.ReconcileKeepingOrderSpec |
