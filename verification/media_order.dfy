/**
 * Media ordering on the seller's add-product form: the two ways of merging
 * the image and video URL lists into one tagged display order, the manual
 * reconciliation run when the lists change, and the three edits a seller
 * can make to the order (arrow swap, drag and drop, and removal, the last
 * of which lives with the form in ProductForm).
 */
module MediaOrder {
  import opened Wrappers

  datatype Kind = Image | Video

  /** One entry of the display order: `{ type, url }`. */
  datatype Media = Media(kind: Kind, url: string)

  function Flip(k: Kind): Kind {
    if k == Image then Video else Image
  }

  /** `urls.map(u => ({ type: kind, url: u }))` */
  function Tag(kind: Kind, urls: seq<string>): (r: seq<Media>)
    ensures |r| == |urls|
    ensures forall i :: 0 <= i < |urls| ==> r[i] == Media(kind, urls[i])
  {
    if urls == [] then [] else [Media(kind, urls[0])] + Tag(kind, urls[1..])
  }

  /** The URLs of the entries of one kind, in display order. */
  function Urls(order: seq<Media>, kind: Kind): seq<string> {
    if order == [] then []
    else (if order[0].kind == kind then [order[0].url] else []) + Urls(order[1..], kind)
  }

  lemma {:induction false} UrlsAppend(a: seq<Media>, b: seq<Media>, kind: Kind)
    ensures Urls(a + b, kind) == Urls(a, kind) + Urls(b, kind)
  {
    if a != [] {
      var head := if a[0].kind == kind then [a[0].url] else [];
      UrlsAppend(a[1..], b, kind);
      assert (a + b)[0] == a[0] && (a + b)[1..] == a[1..] + b;
      calc {
        Urls(a + b, kind);
        head + Urls(a[1..] + b, kind);
        head + (Urls(a[1..], kind) + Urls(b, kind));
        (head + Urls(a[1..], kind)) + Urls(b, kind);
      }
    } else {
      assert a + b == b;
    }
  }

  lemma {:induction false} UrlsOfTag(kind: Kind, urls: seq<string>)
    ensures Urls(Tag(kind, urls), kind) == urls
    ensures Urls(Tag(kind, urls), Flip(kind)) == []
  {
    if urls != [] {
      UrlsOfTag(kind, urls[1..]);
      assert Tag(kind, urls)[1..] == Tag(kind, urls[1..]);
    }
  }

  // ---------------------------------------------------------------------------
  // Auto-arrange
  // ---------------------------------------------------------------------------

  /** What the `buildAutoMerged` loop still appends once `turn` is the kind due
      next and `imgs`/`vids` are the URLs not yet taken: one entry per step,
      the kind due if it has any left, otherwise the other; `turn` flips after
      every step. */
  function Interleave(imgs: seq<string>, vids: seq<string>, turn: Kind): (r: seq<Media>)
    ensures |r| == |imgs| + |vids|
    decreases |imgs| + |vids|
  {
    if imgs == [] && vids == [] then []
    else if turn == Image && imgs != [] then [Media(Image, imgs[0])] + Interleave(imgs[1..], vids, Flip(turn))
    else if turn == Video && vids != [] then [Media(Video, vids[0])] + Interleave(imgs, vids[1..], Flip(turn))
    else if imgs != [] then [Media(Image, imgs[0])] + Interleave(imgs[1..], vids, Flip(turn))
    else [Media(Video, vids[0])] + Interleave(imgs, vids[1..], Flip(turn))
  }

  /** `buildAutoMerged()`: the first turn is an image's when there are images. */
  function AutoMerged(imgs: seq<string>, vids: seq<string>): (r: seq<Media>)
    ensures |r| == |imgs| + |vids|
    ensures imgs != [] ==> r[0] == Media(Image, imgs[0])
    ensures imgs == [] && vids != [] ==> r[0] == Media(Video, vids[0])
  {
    Interleave(imgs, vids, if |imgs| > 0 then Image else Video)
  }

  /** Independent description of auto-arrange: image, video, image, video, ...
      while both lists last, then the rest of the longer list. */
  function Alternate(imgs: seq<string>, vids: seq<string>): seq<Media>
    decreases |imgs|
  {
    if imgs == [] then Tag(Video, vids)
    else if vids == [] then Tag(Image, imgs)
    else [Media(Image, imgs[0]), Media(Video, vids[0])] + Alternate(imgs[1..], vids[1..])
  }

  /** The `buildAutoMerged` loop, statement for statement. */
  method BuildAutoMerged(imgs: seq<string>, vids: seq<string>) returns (merged: seq<Media>)
    ensures merged == AutoMerged(imgs, vids)
    ensures |merged| == |imgs| + |vids|
  {
    merged := [];
    var i, v := 0, 0;
    var turn := if |imgs| > 0 then Image else Video;
    ghost var target := AutoMerged(imgs, vids);
    assert imgs[i..] == imgs && vids[v..] == vids;
    while i < |imgs| || v < |vids|
      invariant 0 <= i <= |imgs| && 0 <= v <= |vids|
      invariant |merged| == i + v
      invariant merged + Interleave(imgs[i..], vids[v..], turn) == target
      decreases |imgs| - i + |vids| - v
    {
      if turn == Image && i < |imgs| {
        TakeImage(merged, imgs, vids, i, v, turn);
        merged := merged + [Media(Image, imgs[i])];
        i := i + 1;
      } else if turn == Video && v < |vids| {
        TakeVideo(merged, imgs, vids, i, v, turn);
        merged := merged + [Media(Video, vids[v])];
        v := v + 1;
      } else if i < |imgs| {
        TakeImage(merged, imgs, vids, i, v, turn);
        merged := merged + [Media(Image, imgs[i])];
        i := i + 1;
      } else {
        // The source's final `else break` cannot be reached: the loop guard
        // leaves a video whenever no image is left.
        assert v < |vids|;
        TakeVideo(merged, imgs, vids, i, v, turn);
        merged := merged + [Media(Video, vids[v])];
        v := v + 1;
      }
      turn := Flip(turn);
    }
    assert imgs[i..] == [] && vids[v..] == [];
    assert merged + Interleave([], [], turn) == merged;
  }

  /** A loop step that takes the next image keeps the loop invariant. */
  lemma TakeImage(merged: seq<Media>, imgs: seq<string>, vids: seq<string>, i: int, v: int, turn: Kind)
    requires 0 <= i < |imgs| && 0 <= v <= |vids| && (turn == Image || v == |vids|)
    ensures merged + Interleave(imgs[i..], vids[v..], turn)
         == (merged + [Media(Image, imgs[i])]) + Interleave(imgs[i + 1..], vids[v..], Flip(turn))
  {
    assert imgs[i..][0] == imgs[i] && imgs[i..][1..] == imgs[i + 1..];
  }

  /** A loop step that takes the next video keeps the loop invariant. */
  lemma TakeVideo(merged: seq<Media>, imgs: seq<string>, vids: seq<string>, i: int, v: int, turn: Kind)
    requires 0 <= i <= |imgs| && 0 <= v < |vids| && (turn == Video || i == |imgs|)
    ensures merged + Interleave(imgs[i..], vids[v..], turn)
         == (merged + [Media(Video, vids[v])]) + Interleave(imgs[i..], vids[v + 1..], Flip(turn))
  {
    assert vids[v..][0] == vids[v] && vids[v..][1..] == vids[v + 1..];
  }

  lemma {:induction false} InterleaveNoVideos(imgs: seq<string>, turn: Kind)
    ensures Interleave(imgs, [], turn) == Tag(Image, imgs)
    decreases |imgs|
  {
    if imgs != [] {
      InterleaveNoVideos(imgs[1..], Flip(turn));
    }
  }

  lemma {:induction false} InterleaveNoImages(vids: seq<string>, turn: Kind)
    ensures Interleave([], vids, turn) == Tag(Video, vids)
    decreases |vids|
  {
    if vids != [] {
      InterleaveNoImages(vids[1..], Flip(turn));
    }
  }

  /** With an image due, the loop produces exactly the alternating order. */
  lemma {:induction false} InterleaveIsAlternate(imgs: seq<string>, vids: seq<string>)
    ensures Interleave(imgs, vids, Image) == Alternate(imgs, vids)
    decreases |imgs|
  {
    if imgs == [] {
      InterleaveNoImages(vids, Image);
    } else if vids == [] {
      InterleaveNoVideos(imgs, Image);
    } else {
      InterleaveIsAlternate(imgs[1..], vids[1..]);
      assert Interleave(imgs[1..], vids, Video)
          == [Media(Video, vids[0])] + Interleave(imgs[1..], vids[1..], Image);
    }
  }

  /** Auto-arrange alternates image and video, starting with an image when
      there is one, and appends the remainder of the longer list. */
  lemma AutoMergedIsAlternate(imgs: seq<string>, vids: seq<string>)
    ensures AutoMerged(imgs, vids) == Alternate(imgs, vids)
  {
    if |imgs| > 0 {
      InterleaveIsAlternate(imgs, vids);
    } else {
      InterleaveNoImages(vids, Video);
    }
  }

  /** Projecting the loop's output onto each kind gives back that kind's list. */
  lemma {:induction false} InterleaveProjects(imgs: seq<string>, vids: seq<string>, turn: Kind)
    ensures Urls(Interleave(imgs, vids, turn), Image) == imgs
    ensures Urls(Interleave(imgs, vids, turn), Video) == vids
    decreases |imgs| + |vids|
  {
    if imgs == [] && vids == [] {
    } else if (turn == Image && imgs != []) || (turn == Video && vids == []) {
      var x := Media(Image, imgs[0]);
      var rest := Interleave(imgs[1..], vids, Flip(turn));
      assert Interleave(imgs, vids, turn) == [x] + rest;
      InterleaveProjects(imgs[1..], vids, Flip(turn));
      UrlsCons(x, rest, Image);
      UrlsCons(x, rest, Video);
      assert imgs == [imgs[0]] + imgs[1..];
    } else {
      var x := Media(Video, vids[0]);
      var rest := Interleave(imgs, vids[1..], Flip(turn));
      assert Interleave(imgs, vids, turn) == [x] + rest;
      InterleaveProjects(imgs, vids[1..], Flip(turn));
      UrlsCons(x, rest, Image);
      UrlsCons(x, rest, Video);
      assert vids == [vids[0]] + vids[1..];
    }
  }

  lemma UrlsCons(x: Media, rest: seq<Media>, kind: Kind)
    ensures Urls([x] + rest, kind) == (if x.kind == kind then [x.url] else []) + Urls(rest, kind)
  {
    assert ([x] + rest)[0] == x && ([x] + rest)[1..] == rest;
  }

  /** The loop's output holds every tagged image and every tagged video once. */
  lemma {:induction false} InterleavePermutes(imgs: seq<string>, vids: seq<string>, turn: Kind)
    ensures multiset(Interleave(imgs, vids, turn)) == multiset(Tag(Image, imgs)) + multiset(Tag(Video, vids))
    decreases |imgs| + |vids|
  {
    if imgs == [] && vids == [] {
    } else if (turn == Image && imgs != []) || (turn == Video && vids == []) {
      var x := Media(Image, imgs[0]);
      var rest := Interleave(imgs[1..], vids, Flip(turn));
      assert Interleave(imgs, vids, turn) == [x] + rest;
      InterleavePermutes(imgs[1..], vids, Flip(turn));
      TagCons(Image, imgs);
      PermutationStep(x, rest, Tag(Image, imgs), Tag(Image, imgs[1..]), Tag(Video, vids));
    } else {
      var x := Media(Video, vids[0]);
      var rest := Interleave(imgs, vids[1..], Flip(turn));
      assert Interleave(imgs, vids, turn) == [x] + rest;
      InterleavePermutes(imgs, vids[1..], Flip(turn));
      TagCons(Video, vids);
      PermutationStep(x, rest, Tag(Video, vids), Tag(Video, vids[1..]), Tag(Image, imgs));
    }
  }

  /** Putting `x` in front of a permutation of `tail + other` gives a
      permutation of `(x + tail) + other`, in either order of the sum. */
  lemma PermutationStep(x: Media, rest: seq<Media>, whole: seq<Media>, tail: seq<Media>, other: seq<Media>)
    requires multiset(whole) == multiset{x} + multiset(tail)
    requires multiset(rest) == multiset(tail) + multiset(other) || multiset(rest) == multiset(other) + multiset(tail)
    ensures multiset([x] + rest) == multiset(whole) + multiset(other)
    ensures multiset([x] + rest) == multiset(other) + multiset(whole)
  {
    assert multiset([x] + rest) == multiset{x} + multiset(rest);
  }

  lemma TagCons(kind: Kind, urls: seq<string>)
    requires urls != []
    ensures multiset(Tag(kind, urls)) == multiset{Media(kind, urls[0])} + multiset(Tag(kind, urls[1..]))
  {
    assert Tag(kind, urls) == [Media(kind, urls[0])] + Tag(kind, urls[1..]);
  }

  /** Everything auto-arrange promises: every entry once, each kind in its
      own order, an image first when there is one. */
  lemma AutoMergedSpec(imgs: seq<string>, vids: seq<string>)
    ensures |AutoMerged(imgs, vids)| == |imgs| + |vids|
    ensures multiset(AutoMerged(imgs, vids)) == multiset(Tag(Image, imgs)) + multiset(Tag(Video, vids))
    ensures Urls(AutoMerged(imgs, vids), Image) == imgs
    ensures Urls(AutoMerged(imgs, vids), Video) == vids
    ensures imgs != [] ==> AutoMerged(imgs, vids)[0] == Media(Image, imgs[0])
    ensures imgs == [] && vids != [] ==> AutoMerged(imgs, vids)[0] == Media(Video, vids[0])
  {
    var turn := if |imgs| > 0 then Image else Video;
    InterleavePermutes(imgs, vids, turn);
    InterleaveProjects(imgs, vids, turn);
  }

  /** Two images with one video alternate, starting with an image; with no
      images the videos keep their order. */
  lemma AutoMergedExamples(i1: string, i2: string, v1: string, v2: string)
    ensures AutoMerged([i1, i2], [v1]) == [Media(Image, i1), Media(Video, v1), Media(Image, i2)]
    ensures AutoMerged([], [v1, v2]) == [Media(Video, v1), Media(Video, v2)]
  {
    AutoMergedIsAlternate([i1, i2], [v1]);
    AutoMergedIsAlternate([], [v1, v2]);
    assert [i1, i2][1..] == [i2];
    assert Alternate([i2], []) == Tag(Image, [i2]);
  }

  // ---------------------------------------------------------------------------
  // Manual mode
  // ---------------------------------------------------------------------------

  /** `buildManualMerged()`: all images, then all videos. */
  function ManualMerged(imgs: seq<string>, vids: seq<string>): (r: seq<Media>)
    ensures |r| == |imgs| + |vids|
    ensures Urls(r, Image) == imgs && Urls(r, Video) == vids
    ensures forall i :: 0 <= i < |imgs| ==> r[i] == Media(Image, imgs[i])
    ensures forall j :: |imgs| <= j < |r| ==> r[j] == Media(Video, vids[j - |imgs|])
  {
    TagsProject(imgs, vids);
    Tag(Image, imgs) + Tag(Video, vids)
  }

  lemma TagsProject(imgs: seq<string>, vids: seq<string>)
    ensures Urls(Tag(Image, imgs) + Tag(Video, vids), Image) == imgs
    ensures Urls(Tag(Image, imgs) + Tag(Video, vids), Video) == vids
  {
    UrlsAppend(Tag(Image, imgs), Tag(Video, vids), Image);
    UrlsAppend(Tag(Image, imgs), Tag(Video, vids), Video);
    UrlsOfTag(Image, imgs);
    UrlsOfTag(Video, vids);
  }

  /** `new Set(order.map(m => m.url))` */
  function UrlSet(order: seq<Media>): (known: set<string>)
    ensures forall i :: 0 <= i < |order| ==> order[i].url in known
    ensures forall u :: u in known ==> exists i :: 0 <= i < |order| && order[i].url == u
  {
    set m | m in order :: m.url
  }

  /** `s.filter(m => known.has(m.url))` when `keep`, else the complementary filter. */
  function Keep(s: seq<Media>, known: set<string>, keep: bool): (r: seq<Media>)
    ensures |r| <= |s|
    ensures forall i :: 0 <= i < |r| ==> (r[i].url in known) == keep
  {
    if s == [] then []
    else (if (s[0].url in known) == keep then [s[0]] else []) + Keep(s[1..], known, keep)
  }

  lemma {:induction false} KeepAppend(a: seq<Media>, b: seq<Media>, known: set<string>, keep: bool)
    ensures Keep(a + b, known, keep) == Keep(a, known, keep) + Keep(b, known, keep)
  {
    if a != [] {
      var head := if (a[0].url in known) == keep then [a[0]] else [];
      KeepAppend(a[1..], b, known, keep);
      assert (a + b)[0] == a[0] && (a + b)[1..] == a[1..] + b;
      calc {
        Keep(a + b, known, keep);
        head + Keep(a[1..] + b, known, keep);
        head + (Keep(a[1..], known, keep) + Keep(b, known, keep));
        (head + Keep(a[1..], known, keep)) + Keep(b, known, keep);
      }
    } else {
      assert a + b == b;
    }
  }

  /** Filtering what already passes the filter changes nothing. */
  lemma {:induction false} KeepAll(s: seq<Media>, known: set<string>, keep: bool)
    requires forall i :: 0 <= i < |s| ==> (s[i].url in known) == keep
    ensures Keep(s, known, keep) == s
    ensures Keep(s, known, !keep) == []
  {
    if s != [] {
      KeepAll(s[1..], known, keep);
    }
  }

  /** The two filters split a sequence without losing or inventing entries. */
  lemma {:induction false} KeepSplits(s: seq<Media>, known: set<string>)
    ensures multiset(Keep(s, known, true)) + multiset(Keep(s, known, false)) == multiset(s)
  {
    if s != [] {
      KeepSplits(s[1..], known);
      KeepCons(s[0], s[1..], known, true);
      KeepCons(s[0], s[1..], known, false);
      assert s == [s[0]] + s[1..];
      if s[0].url in known {
        PermutationStep(s[0], s[1..], Keep(s, known, true), Keep(s[1..], known, true), Keep(s[1..], known, false));
      } else {
        PermutationStep(s[0], s[1..], Keep(s, known, false), Keep(s[1..], known, false), Keep(s[1..], known, true));
      }
    }
  }

  lemma KeepCons(x: Media, rest: seq<Media>, known: set<string>, keep: bool)
    ensures Keep([x] + rest, known, keep) == (if (x.url in known) == keep then [x] else []) + Keep(rest, known, keep)
  {
    assert ([x] + rest)[0] == x && ([x] + rest)[1..] == rest;
  }

  /** The manual-mode branch of the effect that re-derives the order when the
      lists change: entries of the manual merge whose URL was already in the
      previous order, then the others. */
  function Reconcile(prev: seq<Media>, imgs: seq<string>, vids: seq<string>): (r: seq<Media>)
    ensures multiset(r) == multiset(ManualMerged(imgs, vids))
    ensures |r| == |imgs| + |vids|
  {
    var known := UrlSet(prev);
    var current := ManualMerged(imgs, vids);
    KeepSplits(current, known);
    var r := Keep(current, known, true) + Keep(current, known, false);
    assert |r| == |multiset(r)| == |multiset(current)|;
    r
  }

  /** Reconciliation reorders the manual merge and nothing else: every known
      URL comes before every new one, and each group keeps the merge's order. */
  lemma ReconcileSpec(prev: seq<Media>, imgs: seq<string>, vids: seq<string>)
    ensures multiset(Reconcile(prev, imgs, vids)) == multiset(ManualMerged(imgs, vids))
    ensures |Reconcile(prev, imgs, vids)| == |imgs| + |vids|
    ensures forall i, j :: 0 <= i < j < |Reconcile(prev, imgs, vids)| && Reconcile(prev, imgs, vids)[j].url in UrlSet(prev)
              ==> Reconcile(prev, imgs, vids)[i].url in UrlSet(prev)
    ensures Keep(Reconcile(prev, imgs, vids), UrlSet(prev), true) == Keep(ManualMerged(imgs, vids), UrlSet(prev), true)
    ensures Keep(Reconcile(prev, imgs, vids), UrlSet(prev), false) == Keep(ManualMerged(imgs, vids), UrlSet(prev), false)
  {
    var known := UrlSet(prev);
    var current := ManualMerged(imgs, vids);
    var a: seq<Media> := Keep(current, known, true);
    var b: seq<Media> := Keep(current, known, false);
    var r: seq<Media> := a + b;
    KeepSplits(current, known);
    assert multiset(r) == multiset(a) + multiset(b);
    assert |r| == |current| by {
      assert |r| == |multiset(r)| == |multiset(current)|;
    }
    KeepAppend(a, b, known, true);
    KeepAppend(a, b, known, false);
    KeepAll(a, known, true);
    KeepAll(b, known, false);
    forall i, j | 0 <= i < j < |r| && r[j].url in known ensures r[i].url in known {
      // An entry of the second group is never known, so `j` lies in the first.
      assert j < |a|;
      assert r[i] == a[i];
    }
  }

  /** As written, reconciliation rebuilds the known entries in merge order
      (images first), so a manual rearrangement is lost as soon as a URL is
      added: with the order [v1, i1] and a new image i2 the result is
      [i1, v1, i2], not [v1, i1, i2]. */
  lemma ReconcileLosesManualOrder(i1: string, i2: string, v1: string)
    requires i1 != i2 && i1 != v1 && i2 != v1
    ensures Reconcile([Media(Video, v1), Media(Image, i1)], [i1, i2], [v1])
         == [Media(Image, i1), Media(Video, v1), Media(Image, i2)]
  {
    var prev := [Media(Video, v1), Media(Image, i1)];
    var known := UrlSet(prev);
    assert prev[0].url == v1 && prev[1].url == i1;
    assert i2 !in known;
    var current := ManualMerged([i1, i2], [v1]);
    assert current == [Media(Image, i1), Media(Image, i2), Media(Video, v1)];
    KeepOfThree(current, known, true);
    KeepOfThree(current, known, false);
    assert Keep(current, known, true) == [Media(Image, i1), Media(Video, v1)];
    assert Keep(current, known, false) == [Media(Image, i2)];
    ReconcileUnfold(prev, [i1, i2], [v1]);
  }

  lemma ReconcileUnfold(prev: seq<Media>, imgs: seq<string>, vids: seq<string>)
    ensures Reconcile(prev, imgs, vids)
         == Keep(ManualMerged(imgs, vids), UrlSet(prev), true) + Keep(ManualMerged(imgs, vids), UrlSet(prev), false)
  {
  }

  /** `Keep` of a three-entry order, entry by entry. */
  lemma KeepOfThree(s: seq<Media>, known: set<string>, keep: bool)
    requires |s| == 3
    ensures Keep(s, known, keep)
         == (if (s[0].url in known) == keep then [s[0]] else [])
          + (if (s[1].url in known) == keep then [s[1]] else [])
          + (if (s[2].url in known) == keep then [s[2]] else [])
  {
    assert s == [s[0]] + ([s[1]] + ([s[2]] + []));
    KeepCons(s[0], [s[1]] + ([s[2]] + []), known, keep);
    KeepCons(s[1], [s[2]] + [], known, keep);
    KeepCons(s[2], [], known, keep);
  }

  /** The corrected reconciliation (see Findings in the README): the entries
      of the previous order that are still present, in the seller's order,
      then the new entries in merge order. It shows exactly the URLs of the
      current lists. */
  function ReconcileKeepingOrder(prev: seq<Media>, imgs: seq<string>, vids: seq<string>): (r: seq<Media>)
    ensures UrlSet(r) == UrlSet(ManualMerged(imgs, vids))
  {
    var current := ManualMerged(imgs, vids);
    KeepingOrderUrls(prev, current);
    Keep(prev, UrlSet(current), true) + Keep(current, UrlSet(prev), false)
  }

  /** When URLs were only added, the corrected reconciliation leaves the
      previous order untouched as a prefix and appends exactly the new
      entries. */
  lemma ReconcileKeepingOrderSpec(prev: seq<Media>, imgs: seq<string>, vids: seq<string>)
    requires forall k :: 0 <= k < |prev| ==> prev[k].url in UrlSet(ManualMerged(imgs, vids))
    ensures var r := ReconcileKeepingOrder(prev, imgs, vids);
            |r| >= |prev| && r[..|prev|] == prev
            && forall k :: |prev| <= k < |r| ==> r[k].url !in UrlSet(prev)
  {
    KeepAll(prev, UrlSet(ManualMerged(imgs, vids)), true);
    var r := ReconcileKeepingOrder(prev, imgs, vids);
    assert r[..|prev|] == prev;
  }

  lemma ReconcileKeepingOrderPrefix(prev: seq<Media>, imgs: seq<string>, vids: seq<string>)
    ensures (forall k :: 0 <= k < |prev| ==> prev[k].url in UrlSet(ManualMerged(imgs, vids)))
            ==> |ReconcileKeepingOrder(prev, imgs, vids)| >= |prev|
                && ReconcileKeepingOrder(prev, imgs, vids)[..|prev|] == prev
  {
    if forall k :: 0 <= k < |prev| ==> prev[k].url in UrlSet(ManualMerged(imgs, vids)) {
      ReconcileKeepingOrderSpec(prev, imgs, vids);
    }
  }

  /** On the example above the corrected version keeps [v1, i1] and appends i2. */
  lemma ReconcileKeepingOrderExample(i1: string, i2: string, v1: string)
    requires i1 != i2 && i1 != v1 && i2 != v1
    ensures ReconcileKeepingOrder([Media(Video, v1), Media(Image, i1)], [i1, i2], [v1])
         == [Media(Video, v1), Media(Image, i1), Media(Image, i2)]
  {
    var prev := [Media(Video, v1), Media(Image, i1)];
    var current := [Media(Image, i1), Media(Image, i2), Media(Video, v1)];
    MergedExample(i1, i2, v1);
    var before := UrlSet(prev);
    assert prev[0].url == v1 && prev[1].url == i1;
    assert i2 !in before;
    UrlListed(current, 0);
    UrlListed(current, 2);
    KeepAll(prev, UrlSet(current), true);
    KeepOfThree(current, before, false);
    assert Keep(current, before, false) == [Media(Image, i2)];
    ReconcileKeepingOrderUnfold(prev, [i1, i2], [v1]);
  }

  lemma MergedExample(i1: string, i2: string, v1: string)
    ensures ManualMerged([i1, i2], [v1]) == [Media(Image, i1), Media(Image, i2), Media(Video, v1)]
  {
    var m := ManualMerged([i1, i2], [v1]);
    assert m[0] == Media(Image, i1) && m[1] == Media(Image, i2) && m[2] == Media(Video, v1);
  }

  lemma ReconcileKeepingOrderUnfold(prev: seq<Media>, imgs: seq<string>, vids: seq<string>)
    ensures ReconcileKeepingOrder(prev, imgs, vids)
         == Keep(prev, UrlSet(ManualMerged(imgs, vids)), true) + Keep(ManualMerged(imgs, vids), UrlSet(prev), false)
  {
  }

  /** Keeping the previous entries still current and adding the current
      entries not yet known covers exactly the current URLs. */
  lemma KeepingOrderUrls(prev: seq<Media>, current: seq<Media>)
    ensures UrlSet(Keep(prev, UrlSet(current), true) + Keep(current, UrlSet(prev), false)) == UrlSet(current)
  {
    var a := Keep(prev, UrlSet(current), true);
    var b := Keep(current, UrlSet(prev), false);
    forall u ensures u in UrlSet(a + b) <==> u in UrlSet(current) {
      if u in UrlSet(a + b) {
        KeptUrlIsCurrent(prev, current, u);
      }
      if u in UrlSet(current) {
        CurrentUrlIsKept(prev, current, u);
      }
    }
  }

  lemma KeptUrlIsCurrent(prev: seq<Media>, current: seq<Media>, u: string)
    requires u in UrlSet(Keep(prev, UrlSet(current), true) + Keep(current, UrlSet(prev), false))
    ensures u in UrlSet(current)
  {
    var a := Keep(prev, UrlSet(current), true);
    var b := Keep(current, UrlSet(prev), false);
    UrlOfAppend(a, b, u);
    if u in UrlSet(a) {
      UrlOfKept(prev, UrlSet(current), true, u);
    } else {
      UrlOfKept(current, UrlSet(prev), false, u);
    }
  }

  lemma CurrentUrlIsKept(prev: seq<Media>, current: seq<Media>, u: string)
    requires u in UrlSet(current)
    ensures u in UrlSet(Keep(prev, UrlSet(current), true) + Keep(current, UrlSet(prev), false))
  {
    var a := Keep(prev, UrlSet(current), true);
    var b := Keep(current, UrlSet(prev), false);
    if u in UrlSet(prev) {
      KeptUrl(prev, UrlSet(current), true, u);
    } else {
      KeptUrl(current, UrlSet(prev), false, u);
    }
    UrlOfAppend(a, b, u);
  }

  /** A URL of a concatenation is a URL of one of its halves, and conversely. */
  lemma UrlOfAppend(a: seq<Media>, b: seq<Media>, u: string)
    ensures u in UrlSet(a + b) <==> u in UrlSet(a) || u in UrlSet(b)
  {
    if u in UrlSet(a + b) {
      var k := UrlWitness(a + b, u);
      if k < |a| {
        assert (a + b)[k] == a[k];
      } else {
        assert (a + b)[k] == b[k - |a|];
      }
    }
    if u in UrlSet(a) {
      var k := UrlWitness(a, u);
      UrlListed(a + b, k);
    } else if u in UrlSet(b) {
      var k := UrlWitness(b, u);
      UrlListed(a + b, |a| + k);
    }
  }

  /** A URL the filter kept comes from the input and passed the filter. */
  lemma UrlOfKept(s: seq<Media>, known: set<string>, keep: bool, u: string)
    requires u in UrlSet(Keep(s, known, keep))
    ensures u in UrlSet(s) && (u in known) == keep
  {
    var r := Keep(s, known, keep);
    var k := UrlWitness(r, u);
    KeepSubset(s, known, keep, k);
  }

  /** A URL of the input that passes the filter is kept. */
  lemma KeptUrl(s: seq<Media>, known: set<string>, keep: bool, u: string)
    requires u in UrlSet(s) && (u in known) == keep
    ensures u in UrlSet(Keep(s, known, keep))
  {
    var k := UrlWitness(s, u);
    var i := KeepMember(s, known, keep, k);
    UrlListed(Keep(s, known, keep), i);
  }

  lemma UrlWitness(order: seq<Media>, u: string) returns (k: int)
    requires u in UrlSet(order)
    ensures 0 <= k < |order| && order[k].url == u
  {
    k :| 0 <= k < |order| && order[k].url == u;
  }

  lemma UrlListed(order: seq<Media>, k: int)
    requires 0 <= k < |order|
    ensures order[k].url in UrlSet(order)
  {
  }

  /** Every entry of a filtered sequence comes from the sequence. */
  lemma {:induction false} KeepSubset(s: seq<Media>, known: set<string>, keep: bool, i: int)
    requires 0 <= i < |Keep(s, known, keep)|
    ensures Keep(s, known, keep)[i] in s
  {
    var head := if (s[0].url in known) == keep then [s[0]] else [];
    if i >= |head| {
      KeepSubset(s[1..], known, keep, i - |head|);
    }
  }

  /** An entry that passes the filter is kept, at some index of the result. */
  lemma {:induction false} KeepMember(s: seq<Media>, known: set<string>, keep: bool, k: int) returns (i: int)
    requires 0 <= k < |s| && (s[k].url in known) == keep
    ensures 0 <= i < |Keep(s, known, keep)| && Keep(s, known, keep)[i] == s[k]
  {
    var head := if (s[0].url in known) == keep then [s[0]] else [];
    if k == 0 {
      i := 0;
    } else {
      var j := KeepMember(s[1..], known, keep, k - 1);
      i := |head| + j;
    }
  }

  /** The effect `[form.images.length, form.videos.length, autoArrange]`:
      auto mode recomputes auto-arrange; manual mode reconciles the previous
      order with the current lists as the page does (see `Reconcile`). Either
      way the order holds every tagged image and video once. */
  function SyncOrder(auto: bool, prev: seq<Media>, imgs: seq<string>, vids: seq<string>): (r: seq<Media>)
    ensures auto ==> r == AutoMerged(imgs, vids)
    ensures multiset(r) == multiset(Tag(Image, imgs)) + multiset(Tag(Video, vids))
    ensures |r| == |imgs| + |vids|
    ensures UrlSet(r) == UrlSet(ManualMerged(imgs, vids))
    ensures !auto ==> forall i, j :: 0 <= i < j < |r| && r[j].url in UrlSet(prev) ==> r[i].url in UrlSet(prev)
    ensures !auto ==> Keep(r, UrlSet(prev), true) == Keep(ManualMerged(imgs, vids), UrlSet(prev), true)
    ensures !auto ==> Keep(r, UrlSet(prev), false) == Keep(ManualMerged(imgs, vids), UrlSet(prev), false)
  {
    TagsPermute(imgs, vids);
    if auto then
      AutoMergedSpec(imgs, vids);
      AutoMergedUrls(imgs, vids);
      AutoMerged(imgs, vids)
    else
      var r := Reconcile(prev, imgs, vids);
      ReconcileSpec(prev, imgs, vids);
      SameEntriesSameUrls(r, ManualMerged(imgs, vids));
      r
  }

  /** The same effect with the corrected reconciliation in manual mode: the
      order shows exactly the current URLs and, when URLs were only added,
      keeps the previous order as a prefix. */
  function SyncOrderKeepingOrder(auto: bool, prev: seq<Media>, imgs: seq<string>, vids: seq<string>): (r: seq<Media>)
    ensures auto ==> r == AutoMerged(imgs, vids)
    ensures auto ==> multiset(r) == multiset(Tag(Image, imgs)) + multiset(Tag(Video, vids))
    ensures UrlSet(r) == UrlSet(ManualMerged(imgs, vids))
    ensures !auto && (forall k :: 0 <= k < |prev| ==> prev[k].url in UrlSet(ManualMerged(imgs, vids)))
            ==> |r| >= |prev| && r[..|prev|] == prev
  {
    if auto then
      AutoMergedSpec(imgs, vids);
      AutoMergedUrls(imgs, vids);
      AutoMerged(imgs, vids)
    else
      ReconcileKeepingOrderPrefix(prev, imgs, vids);
      ReconcileKeepingOrder(prev, imgs, vids)
  }

  /** Auto-arrange and the manual merge show the same URLs. */
  lemma AutoMergedUrls(imgs: seq<string>, vids: seq<string>)
    ensures UrlSet(AutoMerged(imgs, vids)) == UrlSet(ManualMerged(imgs, vids))
  {
    AutoMergedSpec(imgs, vids);
    TagsPermute(imgs, vids);
    SameEntriesSameUrls(AutoMerged(imgs, vids), ManualMerged(imgs, vids));
  }

  lemma SameEntriesSameUrls(r: seq<Media>, m: seq<Media>)
    requires multiset(r) == multiset(m)
    ensures UrlSet(r) == UrlSet(m)
  {
    forall u ensures u in UrlSet(r) <==> u in UrlSet(m) {
      if u in UrlSet(r) {
        var k := UrlWitness(r, u);
        assert r[k] in multiset(m);
      }
      if u in UrlSet(m) {
        var k := UrlWitness(m, u);
        assert m[k] in multiset(r);
      }
    }
  }

  lemma TagsPermute(imgs: seq<string>, vids: seq<string>)
    ensures multiset(ManualMerged(imgs, vids)) == multiset(Tag(Image, imgs)) + multiset(Tag(Video, vids))
  {
  }

  /** `order.find(m => m.type === "image")?.url` */
  function FirstImage(order: seq<Media>): (r: Option<string>)
    ensures r.None? <==> forall i :: 0 <= i < |order| ==> order[i].kind != Image
    ensures r.Some? ==> exists i :: 0 <= i < |order| && order[i] == Media(Image, r.value)
                                    && forall j :: 0 <= j < i ==> order[j].kind != Image
  {
    if order == [] then None
    else if order[0].kind == Image then Some(order[0].url)
    else
      var r := FirstImage(order[1..]);
      assert forall i :: 1 <= i < |order| ==> order[i] == order[1..][i - 1];
      if r.Some? then
        var i :| 0 <= i < |order[1..]| && order[1..][i] == Media(Image, r.value)
                 && forall j :: 0 <= j < i ==> order[1..][j].kind != Image;
        assert order[i + 1] == Media(Image, r.value);
        r
      else
        r
  }

  /** The first image of an order is the head of its image projection. */
  lemma {:induction false} FirstImageIsFirstUrl(order: seq<Media>)
    ensures FirstImage(order) == if Urls(order, Image) == [] then None else Some(Urls(order, Image)[0])
  {
    if order != [] {
      FirstImageIsFirstUrl(order[1..]);
    }
  }

  /** An entry of an order is found among the URLs of its kind. */
  lemma {:induction false} UrlsContains(order: seq<Media>, k: int)
    requires 0 <= k < |order|
    ensures order[k].url in Urls(order, order[k].kind)
  {
    if k > 0 {
      UrlsContains(order[1..], k - 1);
    }
  }

  // ---------------------------------------------------------------------------
  // Edits of the order
  // ---------------------------------------------------------------------------

  datatype Direction = Left | Right

  /** `moveItem(idx, dir)`: swap with the left or right neighbour, if there is one. */
  function MoveItem(order: seq<Media>, idx: int, dir: Direction): (r: seq<Media>)
    requires 0 <= idx < |order|
    ensures |r| == |order|
    ensures multiset(r) == multiset(order)
    ensures var target := if dir == Left then idx - 1 else idx + 1;
            if 0 <= target < |order| then
              r[idx] == order[target] && r[target] == order[idx]
              && forall k :: 0 <= k < |order| && k != idx && k != target ==> r[k] == order[k]
            else r == order
  {
    var target := if dir == Left then idx - 1 else idx + 1;
    if target < 0 || target >= |order| then order
    else order[idx := order[target]][target := order[idx]]
  }

  /** Moving an entry right and then moving it back left restores the order. */
  lemma MoveRightThenLeft(order: seq<Media>, idx: int)
    requires 0 <= idx < |order|
    ensures idx + 1 < |order| ==> MoveItem(MoveItem(order, idx, Right), idx + 1, Left) == order
    ensures idx + 1 == |order| ==> MoveItem(order, idx, Right) == order
  {
  }

  /** `handleDragEnd`: take out the entry at `from` and insert it at `over`.
      A drag that never entered another tile leaves `over` null, which
      `splice` reads as position 0. */
  function DragMove(order: seq<Media>, from: int, over: Option<int>): (r: seq<Media>)
    requires 0 <= from < |order|
    requires over.Some? ==> 0 <= over.value < |order|
    ensures |r| == |order|
    ensures r[over.GetOr(0)] == order[from]
  {
    var dragged := order[from];
    var rest := order[..from] + order[from + 1..];
    var at := over.GetOr(0);
    rest[..at] + [dragged] + rest[at..]
  }

  /** A drag moves one entry: same length, same entries, the dragged entry at
      its new place and everything else in its old relative order. */
  lemma DragMoveSpec(order: seq<Media>, from: int, over: Option<int>)
    requires 0 <= from < |order|
    requires over.Some? ==> 0 <= over.value < |order|
    ensures |DragMove(order, from, over)| == |order|
    ensures multiset(DragMove(order, from, over)) == multiset(order)
    ensures DragMove(order, from, over)[over.GetOr(0)] == order[from]
    ensures var r := DragMove(order, from, over);
            r[..over.GetOr(0)] + r[over.GetOr(0) + 1..] == order[..from] + order[from + 1..]
  {
    var rest := order[..from] + order[from + 1..];
    var at := over.GetOr(0);
    InsertThenRemove(rest, at, order[from]);
    InsertKeepsEntries(rest, at, order[from]);
    RemoveThenInsert(order, from);
    InsertKeepsEntries(rest, from, order[from]);
  }

  /** Inserting `x` at `at` and then removing position `at` gives back the sequence. */
  lemma InsertThenRemove(rest: seq<Media>, at: int, x: Media)
    requires 0 <= at <= |rest|
    ensures (rest[..at] + [x] + rest[at..])[at] == x
    ensures (rest[..at] + [x] + rest[at..])[..at] + (rest[..at] + [x] + rest[at..])[at + 1..] == rest
  {
    var r := rest[..at] + [x] + rest[at..];
    assert r[..at] == rest[..at];
    assert r[at + 1..] == rest[at..];
  }

  lemma InsertKeepsEntries(rest: seq<Media>, at: int, x: Media)
    requires 0 <= at <= |rest|
    ensures multiset(rest[..at] + [x] + rest[at..]) == multiset(rest) + multiset{x}
  {
    assert rest == rest[..at] + rest[at..];
  }

  /** Removing position `from` and inserting the entry there again gives back the sequence. */
  lemma RemoveThenInsert(order: seq<Media>, from: int)
    requires 0 <= from < |order|
    ensures var rest := order[..from] + order[from + 1..];
            rest[..from] + [order[from]] + rest[from..] == order
  {
    var rest := order[..from] + order[from + 1..];
    assert rest[..from] == order[..from];
    assert rest[from..] == order[from + 1..];
    assert order == order[..from] + [order[from]] + order[from + 1..];
  }

  /** Dragging the entry back to where it came from restores the order. */
  lemma DragBack(order: seq<Media>, from: int, to: int)
    requires 0 <= from < |order| && 0 <= to < |order|
    ensures DragMove(DragMove(order, from, Some(to)), to, Some(from)) == order
  {
    var rest := order[..from] + order[from + 1..];
    InsertThenRemove(rest, to, order[from]);
    RemoveThenInsert(order, from);
  }
}
