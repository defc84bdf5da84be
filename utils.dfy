/** The pure helpers of `src/scripts/utils.ts`: the two-pointer merge of
    sorted arrays, text cutting, the date-limit test, and the ranking of a
    page's favicon links. */
module Utils {
  import opened Wrappers
  import Text
  import Sorting

  // ---------------------------------------------------------------------
  // mergeSortedArrays

  /** What merging `a` and `b` under `cmp` produces: the smaller head first,
      the head of `a` on a tie (`cmp <= 0`), the rest of the other side once
      one side is used up. */
  function Merge<T>(a: seq<T>, b: seq<T>, cmp: (T, T) -> int): seq<T>
    decreases |a| + |b|
  {
    if a == [] then b
    else if b == [] then a
    else if cmp(a[0], b[0]) <= 0 then [a[0]] + Merge(a[1..], b, cmp)
    else [b[0]] + Merge(a, b[1..], cmp)
  }

  /** `r` is `a` and `b` shuffled together, each keeping its own order. */
  ghost predicate Interleaving<T>(r: seq<T>, a: seq<T>, b: seq<T>)
    decreases |r|
  {
    if r == [] then a == [] && b == []
    else
      || (a != [] && r[0] == a[0] && Interleaving(r[1..], a[1..], b))
      || (b != [] && r[0] == b[0] && Interleaving(r[1..], a, b[1..]))
  }

  /** Every adjacent pair is in order under `cmp`. */
  ghost predicate SortedByCmp<T>(s: seq<T>, cmp: (T, T) -> int)
  {
    forall i :: 0 <= i < |s| - 1 ==> cmp(s[i], s[i + 1]) <= 0
  }

  /** `cmp` never says both `x > y` and `y > x`, which holds of every
      comparator that subtracts keys. */
  ghost predicate Antisymmetric<T(!new)>(cmp: (T, T) -> int)
  {
    forall x, y :: cmp(x, y) > 0 ==> cmp(y, x) <= 0
  }

  /** `mergeSortedArrays(a, b, cmp)`. */
  method MergeSortedArrays<T>(a: seq<T>, b: seq<T>, cmp: (T, T) -> int) returns (merged: seq<T>)
    ensures merged == Merge(a, b, cmp)
  {
    ghost var spec := Merge(a, b, cmp);
    merged := [];
    var i, j := 0, 0;
    while i < |a| && j < |b|
      invariant 0 <= i <= |a| && 0 <= j <= |b|
      invariant merged + Merge(a[i..], b[j..], cmp) == spec
      decreases |a| - i + |b| - j
    {
      MergeStep(merged, a, b, i, j, cmp);
      if cmp(a[i], b[j]) <= 0 {
        merged := merged + [a[i]];
        i := i + 1;
      } else {
        merged := merged + [b[j]];
        j := j + 1;
      }
    }
    while i < |a|
      invariant 0 <= i <= |a|
      invariant j == |b| ==> merged + a[i..] == spec
      invariant j < |b| ==> i == |a| && merged + b[j..] == spec
    {
      PushStep(merged, a, i);
      merged := merged + [a[i]];
      i := i + 1;
    }
    while j < |b|
      invariant 0 <= j <= |b|
      invariant merged + b[j..] == spec
    {
      PushStep(merged, b, j);
      merged := merged + [b[j]];
      j := j + 1;
    }
  }


  /** One step of the merge loop: pushing the smaller head onto `merged`
      leaves the same total. */
  lemma MergeStep<T>(merged: seq<T>, a: seq<T>, b: seq<T>, i: int, j: int, cmp: (T, T) -> int)
    requires 0 <= i < |a| && 0 <= j < |b|
    ensures cmp(a[i], b[j]) <= 0 ==>
      merged + Merge(a[i..], b[j..], cmp) == (merged + [a[i]]) + Merge(a[i + 1..], b[j..], cmp)
    ensures cmp(a[i], b[j]) > 0 ==>
      merged + Merge(a[i..], b[j..], cmp) == (merged + [b[j]]) + Merge(a[i..], b[j + 1..], cmp)
  {
    assert a[i..][1..] == a[i + 1..] && b[j..][1..] == b[j + 1..];
  }

  /** One step of a tail loop. */
  lemma PushStep<T>(merged: seq<T>, s: seq<T>, k: int)
    requires 0 <= k < |s|
    ensures merged + s[k..] == (merged + [s[k]]) + s[k + 1..]
  {
    assert s[k..] == [s[k]] + s[k + 1..];
  }

  /** The merge interleaves its inputs: it holds exactly their elements,
      and each input appears in its original relative order. */
  lemma {:induction false} MergeIsInterleaving<T>(a: seq<T>, b: seq<T>, cmp: (T, T) -> int)
    ensures Interleaving(Merge(a, b, cmp), a, b)
    decreases |a| + |b|
  {
    var r := Merge(a, b, cmp);
    if a == [] {
      BothSidesInterleave(b, true);
    } else if b == [] {
      BothSidesInterleave(a, false);
    } else if cmp(a[0], b[0]) <= 0 {
      MergeIsInterleaving(a[1..], b, cmp);
      assert r[1..] == Merge(a[1..], b, cmp);
    } else {
      MergeIsInterleaving(a, b[1..], cmp);
      assert r[1..] == Merge(a, b[1..], cmp);
    }
  }

  /** A sequence interleaves with an empty one. */
  lemma {:induction false} BothSidesInterleave<T>(s: seq<T>, right: bool)
    ensures right ==> Interleaving(s, [], s)
    ensures !right ==> Interleaving(s, s, [])
    decreases |s|
  {
    if s != [] {
      BothSidesInterleave(s[1..], right);
    }
  }

  /** An interleaving is a permutation of the two inputs together. */
  lemma {:induction false} InterleavingIsPermutation<T>(r: seq<T>, a: seq<T>, b: seq<T>)
    requires Interleaving(r, a, b)
    ensures |r| == |a| + |b|
    ensures multiset(r) == multiset(a + b)
    decreases |r|
  {
    if r != [] {
      assert r == [r[0]] + r[1..];
      if a != [] && r[0] == a[0] && Interleaving(r[1..], a[1..], b) {
        InterleavingIsPermutation(r[1..], a[1..], b);
        assert a + b == [a[0]] + (a[1..] + b);
      } else {
        InterleavingIsPermutation(r[1..], a, b[1..]);
        assert multiset(a + b) == multiset(a) + multiset(b);
        assert b == [b[0]] + b[1..];
        assert multiset(a + b[1..]) == multiset(a) + multiset(b[1..]);
      }
    }
  }

  /** The merge has `|a| + |b|` elements and is a permutation of `a + b`. */
  lemma MergeIsPermutation<T>(a: seq<T>, b: seq<T>, cmp: (T, T) -> int)
    ensures |Merge(a, b, cmp)| == |a| + |b|
    ensures multiset(Merge(a, b, cmp)) == multiset(a + b)
  {
    MergeIsInterleaving(a, b, cmp);
    InterleavingIsPermutation(Merge(a, b, cmp), a, b);
  }

  lemma {:induction false} MergeHead<T>(a: seq<T>, b: seq<T>, cmp: (T, T) -> int)
    requires a != [] || b != []
    ensures Merge(a, b, cmp) != []
    ensures a == [] ==> Merge(a, b, cmp)[0] == b[0]
    ensures b == [] ==> Merge(a, b, cmp)[0] == a[0]
    ensures a != [] && b != [] ==>
      Merge(a, b, cmp)[0] == if cmp(a[0], b[0]) <= 0 then a[0] else b[0]
  {
  }

  lemma SortedByCmpTail<T>(s: seq<T>, cmp: (T, T) -> int)
    requires s != [] && SortedByCmp(s, cmp)
    ensures SortedByCmp(s[1..], cmp)
  {
    forall i | 0 <= i < |s[1..]| - 1 ensures cmp(s[1..][i], s[1..][i + 1]) <= 0 {
      assert s[1..][i] == s[i + 1] && s[1..][i + 1] == s[i + 2];
    }
  }

  lemma SortedByCmpCons<T>(x: T, s: seq<T>, cmp: (T, T) -> int)
    requires SortedByCmp(s, cmp)
    requires s != [] ==> cmp(x, s[0]) <= 0
    ensures SortedByCmp([x] + s, cmp)
  {
    var u := [x] + s;
    forall i | 0 <= i < |u| - 1 ensures cmp(u[i], u[i + 1]) <= 0 {
      if i > 0 {
        assert u[i] == s[i - 1] && u[i + 1] == s[i];
      }
    }
  }

  /** Merging two sorted inputs gives a sorted result. */
  lemma {:induction false} MergeIsSorted<T(!new)>(a: seq<T>, b: seq<T>, cmp: (T, T) -> int)
    requires Antisymmetric(cmp)
    requires SortedByCmp(a, cmp) && SortedByCmp(b, cmp)
    ensures SortedByCmp(Merge(a, b, cmp), cmp)
    decreases |a| + |b|
  {
    if a != [] && b != [] {
      if cmp(a[0], b[0]) <= 0 {
        SortedByCmpTail(a, cmp);
        MergeIsSorted(a[1..], b, cmp);
        MergeHead(a[1..], b, cmp);
        if a[1..] != [] {
          assert a[1..][0] == a[1];
        }
        SortedByCmpCons(a[0], Merge(a[1..], b, cmp), cmp);
      } else {
        SortedByCmpTail(b, cmp);
        MergeIsSorted(a, b[1..], cmp);
        MergeHead(a, b[1..], cmp);
        if b[1..] != [] {
          assert b[1..][0] == b[1];
        }
        SortedByCmpCons(b[0], Merge(a, b[1..], cmp), cmp);
      }
    }
  }

  /** Ties go to `a`: when nothing in `a` compares greater than anything in
      `b`, all of `a` comes first. */
  lemma {:induction false} MergeTiesTakeLeft<T>(a: seq<T>, b: seq<T>, cmp: (T, T) -> int)
    requires forall i, j :: 0 <= i < |a| && 0 <= j < |b| ==> cmp(a[i], b[j]) <= 0
    ensures Merge(a, b, cmp) == a + b
    decreases |a|
  {
    if a != [] && b != [] {
      assert cmp(a[0], b[0]) <= 0;
      TiesHoldForTail(a, b, cmp);
      MergeTiesTakeLeft(a[1..], b, cmp);
      HeadThenRest(a, b);
    }
  }

  lemma TiesHoldForTail<T>(a: seq<T>, b: seq<T>, cmp: (T, T) -> int)
    requires a != []
    requires forall i, j :: 0 <= i < |a| && 0 <= j < |b| ==> cmp(a[i], b[j]) <= 0
    ensures forall i, j :: 0 <= i < |a[1..]| && 0 <= j < |b| ==> cmp(a[1..][i], b[j]) <= 0
  {
    forall i, j | 0 <= i < |a[1..]| && 0 <= j < |b| ensures cmp(a[1..][i], b[j]) <= 0 {
      assert a[1..][i] == a[i + 1];
    }
  }

  lemma HeadThenRest<T>(a: seq<T>, b: seq<T>)
    requires a != []
    ensures a + b == [a[0]] + (a[1..] + b)
  {
  }

  /** When everything in `b` compares strictly smaller than everything in
      `a`, all of `b` comes first. */
  lemma {:induction false} MergeStrictlySmallerRight<T>(a: seq<T>, b: seq<T>, cmp: (T, T) -> int)
    requires forall i, j :: 0 <= i < |a| && 0 <= j < |b| ==> cmp(a[i], b[j]) > 0
    ensures Merge(a, b, cmp) == b + a
    decreases |b|
  {
    if a != [] && b != [] {
      assert cmp(a[0], b[0]) > 0;
      forall i, j | 0 <= i < |a| && 0 <= j < |b[1..]| ensures cmp(a[i], b[1..][j]) > 0 {
        assert b[1..][j] == b[j + 1];
      }
      MergeStrictlySmallerRight(a, b[1..], cmp);
      assert b + a == [b[0]] + (b[1..] + a);
    }
  }

  // ---------------------------------------------------------------------
  // cutText

  /** Where `s.slice(0, end)` stops in a string of length `n`: a negative
      end counts from the back, and both are clamped to the string. */
  function SliceEnd(n: nat, end: int): (k: nat)
    ensures k <= n
  {
    if end >= 0 then (if end <= n then end else n)
    else if n + end >= 0 then n + end else 0
  }

  const Ellipsis: char := '\U{2026}'

  /** `cutText(s, length)`: `s` itself when it fits, otherwise its first
      `length` characters followed by an ellipsis. */
  function CutText(s: string, length: int): (r: string)
    ensures |s| <= length ==> r == s
    ensures |s| > length ==> |r| >= 1 && r[|r| - 1] == Ellipsis && Text.StartsWith(s, r[..|r| - 1])
    ensures 0 <= length < |s| ==> |r| == length + 1 && r[..length] == s[..length]
    ensures 0 <= length ==> |r| <= length + 1
    ensures length < 0 ==> |r| <= |s| + 1 && |r| - 1 == SliceEnd(|s|, length)
  {
    if |s| <= length then s else s[..SliceEnd(|s|, length)] + [Ellipsis]
  }

  // ---------------------------------------------------------------------
  // dateCompare

  /** `dateCompare(itemDate, limitDate, before)` as written: false when
      `before` and the item is later, or when the item is earlier; true
      otherwise. */
  function DateCompare(itemDate: int, limitDate: int, before: bool): (r: bool)
    ensures r <==> limitDate <= itemDate && (before ==> itemDate <= limitDate)
  {
    !((before && itemDate > limitDate) || itemDate < limitDate)
  }

  /** Without `before`, the test keeps dates at or after the limit. */
  lemma DateCompareAfter(itemDate: int, limitDate: int)
    ensures DateCompare(itemDate, limitDate, false) <==> itemDate >= limitDate
  {
  }

  /** With `before`, the test keeps only a date equal to the limit: the
      earlier dates that `before` is meant to select are rejected by the
      `itemDate < limitDate` disjunct. */
  lemma DateCompareBeforeIsEquality(itemDate: int, limitDate: int)
    ensures DateCompare(itemDate, limitDate, true) <==> itemDate == limitDate
  {
  }

  /** The limit test the item reducer applies for "mark all read":
      `before` keeps dates at or before the limit, otherwise dates at or
      after it. */
  function WithinDateLimit(itemDate: int, limitDate: int, before: bool): (r: bool)
    ensures before ==> (r <==> itemDate <= limitDate)
    ensures !before ==> (r <==> itemDate >= limitDate)
  {
    if before then itemDate <= limitDate else itemDate >= limitDate
  }

  /** The two tests agree without `before`; with `before` they differ on
      every date strictly earlier than the limit, for instance one
      millisecond earlier. */
  lemma DateCompareVersusLimit(itemDate: int, limitDate: int, before: bool)
    ensures !before ==> DateCompare(itemDate, limitDate, before) == WithinDateLimit(itemDate, limitDate, before)
    ensures before ==> (DateCompare(itemDate, limitDate, before) != WithinDateLimit(itemDate, limitDate, before)
                        <==> itemDate < limitDate)
    ensures !DateCompare(limitDate - 1, limitDate, true) && WithinDateLimit(limitDate - 1, limitDate, true)
  {
  }

  // ---------------------------------------------------------------------
  // getPotentialFavicons

  /** A `<link>` element's `rel`, `href` and `sizes` attributes; an absent
      attribute is `None`. */
  datatype LinkElement = LinkElement(rel: Option<string>, href: Option<string>, sizes: Option<string>)

  datatype RankedIcon = RankedIcon(ranking: int, target: string)

  /** A link that names an icon and has a non-empty `href`. */
  predicate IsIconLink(link: LinkElement)
  {
    (link.rel == Some("icon") || link.rel == Some("shortcut icon"))
    && link.href.Some? && link.href.value != ""
  }

  /** The rank of an icon: -2 for `sizes="any"`, -1 when one of the
      space-separated sizes is `16x16`, 0 otherwise. */
  function Ranking(sizes: Option<string>): (r: int)
    ensures -2 <= r <= 0
    ensures r == -2 <==> sizes == Some("any")
    ensures r == -1 <==> sizes.Some? && sizes.value != "any" && "16x16" in Text.Split(sizes.value, ' ')
  {
    match sizes
    case None => 0
    case Some(s) =>
      if s == "" then 0
      else if s == "any" then -2
      else if "16x16" in Text.Split(s, ' ') then -1
      else 0
  }

  function RankOf(icon: RankedIcon): int
  {
    icon.ranking
  }

  /** The ranked icons the loop collects from the links, in document order;
      `resolve(href, base)` stands for `new URL(href, base)`. */
  function IconCandidates(links: seq<LinkElement>, baseUrl: string, resolve: (string, string) -> string): (r: seq<RankedIcon>)
    ensures |r| <= |links|
    ensures forall c :: c in r ==> -2 <= c.ranking <= 0
  {
    if links == [] then []
    else
      var last := links[|links| - 1];
      IconCandidates(links[..|links| - 1], baseUrl, resolve)
      + if IsIconLink(last) then [RankedIcon(Ranking(last.sizes), resolve(last.href.value, baseUrl))] else []
  }

  function Targets(icons: seq<RankedIcon>): (r: seq<string>)
    ensures |r| == |icons|
    ensures forall k :: 0 <= k < |icons| ==> r[k] == icons[k].target
  {
    seq(|icons|, k requires 0 <= k < |icons| => icons[k].target)
  }

  /** What `getPotentialFavicons` returns: the icon targets, stably sorted
      by rank. */
  function PotentialFavicons(links: seq<LinkElement>, baseUrl: string, resolve: (string, string) -> string): seq<string>
  {
    Targets(Sorting.SortBy(IconCandidates(links, baseUrl, resolve), RankOf))
  }

  /** `new URL(href, base)` when it does not throw, and "" in its place
      otherwise; only used once every icon link has resolved. */
  function ResolvedOrEmpty(resolve: (string, string) -> Option<string>): (string, string) -> string
  {
    (href: string, base: string) => resolve(href, base).GetOr("")
  }

  /** The href of the first icon link whose `new URL(href, baseUrl)` throws,
      if any. */
  function UnresolvedIcon(links: seq<LinkElement>, baseUrl: string, resolve: (string, string) -> Option<string>): (r: Option<string>)
    ensures r.None? <==> forall i :: 0 <= i < |links| && IsIconLink(links[i]) ==> resolve(links[i].href.value, baseUrl).Some?
    ensures r.Some? ==>
      exists i ::
        && 0 <= i < |links| && IsIconLink(links[i]) && links[i].href.value == r.value
        && resolve(r.value, baseUrl).None?
        && forall j :: 0 <= j < i && IsIconLink(links[j]) ==> resolve(links[j].href.value, baseUrl).Some?
    decreases |links|
  {
    if links == [] then None
    else
      var init := links[..|links| - 1];
      var last := links[|links| - 1];
      var earlier := UnresolvedIcon(init, baseUrl, resolve);
      assert forall i :: 0 <= i < |init| ==> init[i] == links[i];
      if earlier.Some? then earlier
      else if IsIconLink(last) && resolve(last.href.value, baseUrl).None? then Some(last.href.value)
      else None
  }

  /** What `getPotentialFavicons(dom, baseUrl)` returns, or the href it
      throws on. */
  function Favicons(links: seq<LinkElement>, baseUrl: string, resolve: (string, string) -> Option<string>): Result<seq<string>, string>
  {
    match UnresolvedIcon(links, baseUrl, resolve)
    case Some(href) => Err(href)
    case None => Ok(PotentialFavicons(links, baseUrl, ResolvedOrEmpty(resolve)))
  }

  /** Once a prefix of the links holds an unresolvable icon link, the whole
      list fails on that same href. */
  lemma {:induction false} UnresolvedIconPrefix(links: seq<LinkElement>, i: int, baseUrl: string, resolve: (string, string) -> Option<string>)
    requires 0 <= i <= |links|
    requires UnresolvedIcon(links[..i], baseUrl, resolve).Some?
    ensures UnresolvedIcon(links, baseUrl, resolve) == UnresolvedIcon(links[..i], baseUrl, resolve)
    decreases |links| - i
  {
    if i < |links| {
      var init := links[..|links| - 1];
      assert init[..i] == links[..i];
      UnresolvedIconPrefix(init, i, baseUrl, resolve);
    } else {
      assert links[..i] == links;
    }
  }

  /** `getPotentialFavicons(dom, baseUrl)` over the document's `<link>`
      elements; `resolve` is `new URL`, with None where it throws. */
  method GetPotentialFavicons(links: seq<LinkElement>, baseUrl: string, resolve: (string, string) -> Option<string>)
    returns (r: Result<seq<string>, string>)
    ensures r == Favicons(links, baseUrl, resolve)
  {
    var out: seq<RankedIcon> := [];
    for i := 0 to |links|
      invariant UnresolvedIcon(links[..i], baseUrl, resolve).None?
      invariant out == IconCandidates(links[..i], baseUrl, ResolvedOrEmpty(resolve))
    {
      var link := links[i];
      assert links[..i + 1][..i] == links[..i];
      if IsIconLink(link) {
        var ranking := 0;
        var sizes := link.sizes;
        if sizes.Some? && sizes.value != "" {
          if sizes.value == "any" {
            ranking := -2;
          } else {
            var sizesSplit := Text.Split(sizes.value, ' ');
            if "16x16" in sizesSplit {
              ranking := -1;
            }
          }
        }
        var target := resolve(link.href.value, baseUrl);
        if target.None? {
          UnresolvedIconPrefix(links, i + 1, baseUrl, resolve);
          return Err(link.href.value);
        }
        out := out + [RankedIcon(ranking, target.value)];
      }
    }
    assert links[..|links|] == links;
    var sorted := Sorting.SortBy(out, RankOf);
    var icons := [];
    for k := 0 to |sorted|
      invariant icons == Targets(sorted[..k])
    {
      icons := icons + [sorted[k].target];
    }
    assert sorted[..|sorted|] == sorted;
    return Ok(icons);
  }

  /** The targets of the icon links, in document order. */
  function IconTargets(links: seq<LinkElement>, baseUrl: string, resolve: (string, string) -> string): seq<string>
  {
    if links == [] then []
    else
      var last := links[|links| - 1];
      IconTargets(links[..|links| - 1], baseUrl, resolve)
      + if IsIconLink(last) then [resolve(last.href.value, baseUrl)] else []
  }

  lemma {:induction false} CandidateTargets(links: seq<LinkElement>, baseUrl: string, resolve: (string, string) -> string)
    ensures Targets(IconCandidates(links, baseUrl, resolve)) == IconTargets(links, baseUrl, resolve)
    decreases |links|
  {
    if links != [] {
      CandidateTargets(links[..|links| - 1], baseUrl, resolve);
      var c := IconCandidates(links[..|links| - 1], baseUrl, resolve);
      var last := links[|links| - 1];
      var extra := if IsIconLink(last) then [RankedIcon(Ranking(last.sizes), resolve(last.href.value, baseUrl))] else [];
      assert Targets(c + extra) == Targets(c) + Targets(extra);
    }
  }

  lemma TargetsCons(x: RankedIcon, s: seq<RankedIcon>)
    ensures Targets([x] + s) == [x.target] + Targets(s)
  {
  }

  lemma {:induction false} InsertTargets(x: RankedIcon, s: seq<RankedIcon>)
    ensures multiset(Targets(Sorting.Insert(x, s, RankOf))) == multiset(Targets(s)) + multiset{x.target}
    decreases |s|
  {
    if s != [] && RankOf(x) > RankOf(s[0]) {
      var r := Sorting.Insert(x, s[1..], RankOf);
      InsertTargets(x, s[1..]);
      assert Sorting.Insert(x, s, RankOf) == [s[0]] + r;
      TargetsCons(s[0], r);
      TargetsCons(s[0], s[1..]);
      assert s == [s[0]] + s[1..];
    } else {
      assert Sorting.Insert(x, s, RankOf) == [x] + s;
      TargetsCons(x, s);
    }
  }

  lemma {:induction false} SortTargets(c: seq<RankedIcon>)
    ensures multiset(Targets(Sorting.SortBy(c, RankOf))) == multiset(Targets(c))
    decreases |c|
  {
    if c != [] {
      SortTargets(c[1..]);
      InsertTargets(c[0], Sorting.SortBy(c[1..], RankOf));
      assert Targets(c) == [c[0].target] + Targets(c[1..]);
    }
  }

  /** Only icon links are returned, each resolved against the base URL, and
      each as often as it occurs; a document without icon links gives an
      empty list. */
  lemma FaviconsAreTheIconLinks(links: seq<LinkElement>, baseUrl: string, resolve: (string, string) -> string)
    ensures multiset(PotentialFavicons(links, baseUrl, resolve)) == multiset(IconTargets(links, baseUrl, resolve))
    ensures (forall i :: 0 <= i < |links| ==> !IsIconLink(links[i])) ==> PotentialFavicons(links, baseUrl, resolve) == []
  {
    var c := IconCandidates(links, baseUrl, resolve);
    SortTargets(c);
    CandidateTargets(links, baseUrl, resolve);
    if forall i :: 0 <= i < |links| ==> !IsIconLink(links[i]) {
      NoIconTargets(links, baseUrl, resolve);
    }
  }

  lemma {:induction false} NoIconTargets(links: seq<LinkElement>, baseUrl: string, resolve: (string, string) -> string)
    requires forall i :: 0 <= i < |links| ==> !IsIconLink(links[i])
    ensures IconCandidates(links, baseUrl, resolve) == []
    decreases |links|
  {
    if links != [] {
      NoIconTargets(links[..|links| - 1], baseUrl, resolve);
    }
  }

  /** The favicon order: every `sizes="any"` icon, then every 16x16 icon,
      then the rest, each group in document order. */
  lemma FaviconOrder(links: seq<LinkElement>, baseUrl: string, resolve: (string, string) -> string)
    ensures var c := IconCandidates(links, baseUrl, resolve);
      PotentialFavicons(links, baseUrl, resolve)
      == Targets(Sorting.WithKey(c, RankOf, -2) + Sorting.WithKey(c, RankOf, -1) + Sorting.WithKey(c, RankOf, 0))
  {
    var c := IconCandidates(links, baseUrl, resolve);
    var s := Sorting.SortBy(c, RankOf);
    Sorting.SortByIsSortedPermutation(c, RankOf);
    forall i | 0 <= i < |s| ensures -2 <= RankOf(s[i]) <= 0 {
      assert s[i] in multiset(c);
    }
    Sorting.SortedSplitsIntoThreeKeys(s, RankOf, -2);
    Sorting.SortByIsStable(c, RankOf, -2);
    Sorting.SortByIsStable(c, RankOf, -1);
    Sorting.SortByIsStable(c, RankOf, 0);
  }
}
