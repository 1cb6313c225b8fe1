/**
 * `getInitials`, which the profile page and the edit-profile page define
 * identically: trim the name, split it on single spaces and upper-case the
 * first character of the first one or two parts.
 *
 * JavaScript reads a character past the end of a string as `undefined`.
 * `undefined.toUpperCase()` throws, and `"a" + undefined` is the text
 * `"aundefined"`. Both behaviours are kept here.
 */
module Initials {
  import opened Wrappers
  import opened Text

  /** What a call produces: the letters shown in the avatar, or a thrown TypeError. */
  datatype InitialsResult = Letters(text: string) | Throws

  /** `s[0]`: the first character, or `undefined` for the empty string. */
  function FirstChar(s: string): Option<char> {
    if s == [] then None else Some(s[0])
  }

  /** JavaScript `a + b` of two single characters, either possibly `undefined`.
      Two `undefined`s add up to NaN, a number, whose `toUpperCase` throws. */
  function ConcatInitials(a: Option<char>, b: Option<char>): Option<string> {
    match (a, b)
    case (Some(x), Some(y)) => Some([x, y])
    case (Some(x), None) => Some([x] + "undefined")
    case (None, Some(y)) => Some("undefined" + [y])
    case (None, None) => None
  }

  /** `getInitials(name)`, where `None` is an undefined or null name. */
  function GetInitials(name: Option<string>): (r: InitialsResult)
    ensures name.None? ==> r == Letters("U")
    ensures r.Letters? ==> |r.text| >= 1
    ensures r.Letters? ==> forall i :: 0 <= i < |r.text| ==> !IsAsciiLower(r.text[i])
  {
    match name
    case None => Letters("U")
    case Some(n) =>
      // `split` never returns an empty array, so the `!parts?.length` test fails here.
      InitialsOfParts(Split(Trim(n), ' '))
  }

  /** The letters taken from the parts of the trimmed name. */
  function InitialsOfParts(parts: seq<string>): (r: InitialsResult)
    requires |parts| >= 1
    ensures r.Letters? ==> |r.text| >= 1
    ensures r.Letters? ==> forall i :: 0 <= i < |r.text| ==> !IsAsciiLower(r.text[i])
  {
    if |parts| == 1 then
      match FirstChar(parts[0])
      case None => Throws
      case Some(c) => Letters([ToUpper(c)])
    else
      match ConcatInitials(FirstChar(parts[0]), FirstChar(parts[1]))
      case None => Throws
      case Some(t) => Letters(UpperString(t))
  }

  /** A name without spaces and without surrounding white space gives its upper-cased first letter. */
  lemma OneWordInitial(w: string)
    requires |w| >= 1 && ' ' !in w
    requires !IsJsWhitespace(w[0]) && !IsJsWhitespace(w[|w| - 1])
    ensures GetInitials(Some(w)) == Letters([ToUpper(w[0])])
  {
    TrimUnchanged(w);
    SplitWord(w, ' ', []);
    InitialOfSinglePart(w);
  }

  lemma InitialOfSinglePart(w: string)
    requires |w| >= 1 && Trim(w) == w && Split(w, ' ') == [w]
    ensures GetInitials(Some(w)) == Letters([ToUpper(w[0])])
  {
  }


  /** White space around a name changes nothing: `getInitials(" bob ")` is
      `getInitials("bob")`. */
  lemma PaddingIgnored(n: string)
    ensures GetInitials(Some(n)) == GetInitials(Some(Trim(n)))
  {
    var t := Trim(n);
    TrimUnchanged(t);
    assert GetInitials(Some(t)) == InitialsOfParts(Split(Trim(t), ' '));
  }

  /** A single word with any white space around it gives its upper-cased first letter. */
  lemma PaddedOneWordInitial(n: string)
    requires |Trim(n)| >= 1 && ' ' !in Trim(n)
    ensures GetInitials(Some(n)) == Letters([ToUpper(Trim(n)[0])])
  {
    PaddingIgnored(n);
    OneWordInitial(Trim(n));
  }

  /** Two or more words separated by single spaces give the upper-cased first
      letters of the first two words; every later word is ignored. */
  lemma ManyWordsInitials(words: seq<string>)
    requires |words| >= 2
    requires forall k :: 0 <= k < |words| ==> |words[k]| >= 1 && ' ' !in words[k]
    requires !IsJsWhitespace(words[0][0])
    requires !IsJsWhitespace(words[|words| - 1][|words[|words| - 1]| - 1])
    ensures GetInitials(Some(Join(words, ' '))) == Letters([ToUpper(words[0][0]), ToUpper(words[1][0])])
  {
    var s := Join(words, ' ');
    JoinEnds(words, ' ');
    TrimUnchanged(s);
    SplitJoin(words, ' ');
    assert Split(Trim(s), ' ') == words;
    UpperPair(words[0][0], words[1][0]);
  }

  /** The join of non-empty parts starts with the first part's first character and ends with the last part's last. */
  lemma {:induction false} JoinEnds(parts: seq<string>, sep: char)
    requires |parts| >= 1
    requires forall k :: 0 <= k < |parts| ==> |parts[k]| >= 1
    ensures |Join(parts, sep)| >= 1
    ensures Join(parts, sep)[0] == parts[0][0]
    ensures Join(parts, sep)[|Join(parts, sep)| - 1] == parts[|parts| - 1][|parts[|parts| - 1]| - 1]
  {
    if |parts| > 1 {
      JoinEnds(parts[1..], sep);
    }
  }

  /** The call throws exactly when the name is present but blank: `"".split(" ")`
      is `[""]`, whose first character is `undefined`. */
  lemma ThrowsIffBlank(n: string)
    ensures GetInitials(Some(n)).Throws? <==> AllWhitespace(n)
  {
    TrimEmptyIff(n);
    // A trimmed non-empty string does not start with a space, so its first part is not empty.
  }

  /** Two spaces after the first word make the second part empty, so its first
      character is `undefined` and the avatar reads, for "ab  cd", "AUNDEFINED". */
  lemma DoubleSpaceQuirk(x: string, y: string)
    requires |x| >= 1 && |y| >= 1 && ' ' !in x && ' ' !in y
    requires !IsJsWhitespace(x[0]) && !IsJsWhitespace(y[|y| - 1])
    ensures GetInitials(Some(x + "  " + y)) == Letters([ToUpper(x[0])] + "UNDEFINED")
  {
    DoubleSpaceParts(x, y);
    var parts := [x, "", y];
    assert ConcatInitials(FirstChar(parts[0]), FirstChar(parts[1])) == Some([x[0]] + "undefined");
    UpperUndefined(x[0]);
  }

  /** Splitting `x + "  " + y` gives the two words with an empty part between them. */
  lemma DoubleSpaceParts(x: string, y: string)
    requires |x| >= 1 && |y| >= 1 && ' ' !in x && ' ' !in y
    requires !IsJsWhitespace(x[0]) && !IsJsWhitespace(y[|y| - 1])
    ensures Split(Trim(x + "  " + y), ' ') == [x, "", y]
  {
    var parts := [x, "", y];
    var n := x + "  " + y;
    assert parts[1..] == ["", y] && parts[1..][1..] == [y];
    assert Join(["", y], ' ') == "" + [' '] + y;
    assert n == x + [' '] + ("" + [' '] + y);
    assert Join(parts, ' ') == n;
    assert n[0] == x[0] && n[|n| - 1] == y[|y| - 1];
    TrimUnchanged(n);
    SplitJoin(parts, ' ');
  }

  lemma UpperUndefined(c: char)
    ensures UpperString([c] + "undefined") == [ToUpper(c)] + "UNDEFINED"
  {
    UpperAppend([c], "undefined");
    UpperOfUndefined();
    assert UpperString([c]) == [ToUpper(c)];
  }

  lemma UpperOfUndefined()
    ensures UpperString("undefined") == "UNDEFINED"
  {
  }

  lemma UpperAppend(a: string, b: string)
    ensures UpperString(a + b) == UpperString(a) + UpperString(b)
  {
    var l, r := UpperString(a + b), UpperString(a) + UpperString(b);
    forall i | 0 <= i < |l| ensures l[i] == r[i] {
      if i < |a| { assert (a + b)[i] == a[i]; } else { assert (a + b)[i] == b[i - |a|]; }
    }
  }

  lemma UpperPair(a: char, b: char)
    ensures UpperString([a, b]) == [ToUpper(a), ToUpper(b)]
  {
    var u := UpperString([a, b]);
    assert u[0] == ToUpper(a) && u[1] == ToUpper(b);
  }

  /** `getInitials` with the evidently intended fallback: any missing or blank name shows "U". */
  function SafeInitials(name: Option<string>): (r: string)
    ensures |r| >= 1
    ensures GetInitials(name).Letters? ==> r == GetInitials(name).text
    ensures name.Some? && AllWhitespace(name.value) ==> r == "U"
  {
    match GetInitials(name)
    case Letters(t) => t
    case Throws => "U"
  }

  /** The corrected version never throws on a blank name, where the original does. */
  lemma SafeInitialsOnBlank(n: string)
    requires AllWhitespace(n)
    ensures GetInitials(Some(n)) == Throws
    ensures SafeInitials(Some(n)) == "U"
  {
    ThrowsIffBlank(n);
  }
}
