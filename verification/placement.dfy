/** Locating each annotation's span in the sentence text with a cursor that only
    moves forward, so that a repeated surface matches its next occurrence. */
module Placement {
  import opened Text
  import opened Story

  /** A located annotation: the half-open span [start, end) of the text. */
  datatype Placement = Placement(start: nat, end: nat, surface: string, reading: string)

  /** The span holds exactly the placement's surface. */
  predicate Genuine(text: string, p: Placement) {
    p.end == p.start + |p.surface| <= |text| && text[p.start..p.end] == p.surface
  }

  /** Every placement is genuine and starts at or after `lo`. */
  predicate AllGenuine(text: string, ps: seq<Placement>, lo: nat) {
    forall i :: 0 <= i < |ps| ==> Genuine(text, ps[i]) && lo <= ps[i].start
  }

  /** Spans appear left to right and never overlap. */
  predicate Disjoint(ps: seq<Placement>) {
    forall i, j :: 0 <= i < j < |ps| ==> ps[i].end <= ps[j].start
  }

  /** The same two facts stated placement by placement: each is genuine and
      starts at or after `pos`, the end of the one before it. */
  predicate Laid(text: string, ps: seq<Placement>, pos: nat)
    decreases |ps|
  {
    |ps| == 0 || (Genuine(text, ps[0]) && pos <= ps[0].start && Laid(text, ps[1..], ps[0].end))
  }

  lemma {:induction false} LaidFromDisjoint(text: string, ps: seq<Placement>, pos: nat)
    requires AllGenuine(text, ps, pos) && Disjoint(ps)
    ensures Laid(text, ps, pos)
    decreases |ps|
  {
    if |ps| > 0 {
      LaidFromDisjoint(text, ps[1..], ps[0].end);
    }
  }

  predicate SortedByStart(ps: seq<Placement>) {
    forall i, j :: 0 <= i < j < |ps| ==> ps[i].start <= ps[j].start
  }

  /** The annotation a placement was made from. */
  function Source(p: Placement): Annotation {
    Annotation(p.surface, p.reading)
  }

  /** `a` is `b` with some elements left out. */
  predicate IsSubsequence(a: seq<Annotation>, b: seq<Annotation>)
    decreases |b|
  {
    if |a| == 0 then true
    else if |b| == 0 then false
    else (a[0] == b[0] && IsSubsequence(a[1..], b[1..])) || IsSubsequence(a, b[1..])
  }

  function Sources(ps: seq<Placement>): (r: seq<Annotation>)
    ensures |r| == |ps|
  {
    seq(|ps|, i requires 0 <= i < |ps| => Source(ps[i]))
  }

  /** The placement loop from cursor position `cursor` on: each annotation is
      matched at the first occurrence of its surface at or after the cursor,
      which then moves past the match; an annotation that is not found is
      skipped and leaves the cursor where it is. */
  function LocateFrom(text: string, anns: seq<Annotation>, cursor: nat): (ps: seq<Placement>)
    requires cursor <= |text|
    ensures |ps| <= |anns|
    ensures AllGenuine(text, ps, cursor)
    ensures Disjoint(ps)
    decreases |anns|
  {
    if |anns| == 0 then []
    else
      var a := anns[0];
      match IndexOf(text, a.surface, cursor)
      case None => LocateFrom(text, anns[1..], cursor)
      case Some(idx) =>
        var p := Placement(idx, idx + |a.surface|, a.surface, a.reading);
        var rest := LocateFrom(text, anns[1..], p.end);
        assert Genuine(text, p);
        [p] + rest
  }

  /** Inserts `p` before the first element that does not start earlier, so
      that among equal starts the original order is kept. */
  function InsertByStart(p: Placement, ps: seq<Placement>): (r: seq<Placement>)
    requires SortedByStart(ps)
    ensures multiset(r) == multiset([p] + ps)
    ensures SortedByStart(r)
    ensures |r| > 0 && (r[0] == p || (|ps| > 0 && r[0] == ps[0]))
  {
    if |ps| == 0 || p.start <= ps[0].start then [p] + ps
    else
      var rest := InsertByStart(p, ps[1..]);
      assert ps == [ps[0]] + ps[1..];
      [ps[0]] + rest
  }

  /** `placements.sort((a, b) => a.start - b.start)`: a stable sort by start. */
  function SortByStart(ps: seq<Placement>): (r: seq<Placement>)
    ensures multiset(r) == multiset(ps)
    ensures SortedByStart(r)
  {
    if |ps| == 0 then []
    else
      assert ps == [ps[0]] + ps[1..];
      InsertByStart(ps[0], SortByStart(ps[1..]))
  }

  /** A list already in start order comes back from the stable sort unchanged. */
  lemma {:induction false} SortKeepsSorted(ps: seq<Placement>)
    requires SortedByStart(ps)
    ensures SortByStart(ps) == ps
  {
    if |ps| > 0 {
      SortKeepsSorted(ps[1..]);
    }
  }

  /** The placements of a sentence: the placement loop from offset 0, then the
      sort by start, which never reorders anything because the loop already
      produces them left to right. */
  function Locate(text: string, anns: seq<Annotation>): (ps: seq<Placement>)
    ensures ps == LocateFrom(text, anns, 0)
    ensures |ps| <= |anns|
    ensures AllGenuine(text, ps, 0)
    ensures Disjoint(ps)
    ensures Laid(text, ps, 0)
  {
    var located := LocateFrom(text, anns, 0);
    SortKeepsSorted(located);
    LaidFromDisjoint(text, located, 0);
    SortByStart(located)
  }

  /** The placement loop written as the source writes it, with a cursor
      `searchPos`, followed by the sort. */
  method PlaceAnnotations(text: string, anns: seq<Annotation>) returns (ps: seq<Placement>)
    ensures ps == Locate(text, anns)
  {
    ps := [];
    var searchPos: nat := 0;
    var k := 0;
    while k < |anns|
      invariant k <= |anns|
      invariant searchPos <= |text|
      invariant ps + LocateFrom(text, anns[k..], searchPos) == LocateFrom(text, anns, 0)
    {
      var a := anns[k];
      assert anns[k..][0] == a && anns[k..][1..] == anns[k + 1..];
      var idx := IndexOf(text, a.surface, searchPos);
      if idx.Some? {
        var p := Placement(idx.value, idx.value + |a.surface|, a.surface, a.reading);
        ghost var tail := LocateFrom(text, anns[k + 1..], p.end);
        assert LocateFrom(text, anns[k..], searchPos) == [p] + tail;
        assert ps + ([p] + tail) == (ps + [p]) + tail;
        ps := ps + [p];
        searchPos := p.end;
      } else {
        assert LocateFrom(text, anns[k..], searchPos) == LocateFrom(text, anns[k + 1..], searchPos);
      }
      k := k + 1;
    }
    assert anns[k..] == [];
    assert ps == LocateFrom(text, anns, 0);
    SortKeepsSorted(ps);
    ps := SortByStart(ps);
  }

  /** No placement's surface occurs between the end of the previous placement
      (or `cursor`, for the first) and the placement's own start. */
  predicate TakesNextOccurrence(text: string, ps: seq<Placement>, cursor: nat) {
    forall k, j :: 0 <= k < |ps| && (if k == 0 then cursor else ps[k - 1].end) <= j < ps[k].start ==>
      !MatchesAt(text, ps[k].surface, j)
  }

  /** Each placement lies at the first occurrence of its surface at or after
      the end of the previous placement (or the starting cursor): a repeated
      surface is matched against its next occurrence, never an earlier one. */
  lemma {:induction false} LocateTakesNextOccurrence(text: string, anns: seq<Annotation>, cursor: nat)
    requires cursor <= |text|
    ensures TakesNextOccurrence(text, LocateFrom(text, anns, cursor), cursor)
    decreases |anns|
  {
    if |anns| > 0 {
      var a := anns[0];
      match IndexOf(text, a.surface, cursor)
      case None =>
        assert LocateFrom(text, anns, cursor) == LocateFrom(text, anns[1..], cursor);
        LocateTakesNextOccurrence(text, anns[1..], cursor);
      case Some(idx) =>
        var p := Placement(idx, idx + |a.surface|, a.surface, a.reading);
        var rest := LocateFrom(text, anns[1..], p.end);
        assert LocateFrom(text, anns, cursor) == [p] + rest;
        LocateTakesNextOccurrence(text, anns[1..], p.end);
        NextOccurrenceCons(text, p, rest, cursor);
    }
  }

  lemma NextOccurrenceCons(text: string, p: Placement, rest: seq<Placement>, cursor: nat)
    requires forall j :: cursor <= j < p.start ==> !MatchesAt(text, p.surface, j)
    requires TakesNextOccurrence(text, rest, p.end)
    ensures TakesNextOccurrence(text, [p] + rest, cursor)
  {
    var ps := [p] + rest;
    forall k, j | 0 <= k < |ps| && (if k == 0 then cursor else ps[k - 1].end) <= j < ps[k].start
      ensures !MatchesAt(text, ps[k].surface, j)
    {
      if k > 0 {
        assert ps[k] == rest[k - 1];
        assert (if k - 1 == 0 then p.end else rest[k - 2].end) == ps[k - 1].end;
      }
    }
  }

  /** The placements are made from the annotations, in the annotations' order,
      each at most once. */
  lemma {:induction false} LocateKeepsAnnotationOrder(text: string, anns: seq<Annotation>, cursor: nat)
    requires cursor <= |text|
    ensures IsSubsequence(Sources(LocateFrom(text, anns, cursor)), anns)
    decreases |anns|
  {
    if |anns| > 0 {
      var a := anns[0];
      var ps := LocateFrom(text, anns, cursor);
      match IndexOf(text, a.surface, cursor)
      case None =>
        LocateKeepsAnnotationOrder(text, anns[1..], cursor);
        SkipKeepsSubsequence(Sources(ps), anns);
      case Some(idx) =>
        var rest := LocateFrom(text, anns[1..], idx + |a.surface|);
        LocateKeepsAnnotationOrder(text, anns[1..], idx + |a.surface|);
        assert Sources(ps)[1..] == Sources(rest);
    }
  }

  lemma SkipKeepsSubsequence(a: seq<Annotation>, b: seq<Annotation>)
    requires |b| > 0 && IsSubsequence(a, b[1..])
    ensures IsSubsequence(a, b)
  {
  }

  /** An annotation whose surface does not occur at or after the cursor makes no
      placement and leaves the cursor where it was. */
  lemma LocateDropsUnmatched(text: string, a: Annotation, rest: seq<Annotation>, cursor: nat)
    requires cursor <= |text|
    requires forall j :: cursor <= j ==> !MatchesAt(text, a.surface, j)
    ensures LocateFrom(text, [a] + rest, cursor) == LocateFrom(text, rest, cursor)
  {
    assert ([a] + rest)[1..] == rest;
  }

  /** An annotation whose surface does occur at or after the cursor is placed
      first, at the earliest such occurrence, and the cursor moves past it. */
  lemma LocatePlacesMatched(text: string, a: Annotation, rest: seq<Annotation>, cursor: nat, j: nat)
    requires cursor <= j && MatchesAt(text, a.surface, j)
    requires forall i :: cursor <= i < j ==> !MatchesAt(text, a.surface, i)
    ensures LocateFrom(text, [a] + rest, cursor)
         == [Placement(j, j + |a.surface|, a.surface, a.reading)] + LocateFrom(text, rest, j + |a.surface|)
  {
    assert ([a] + rest)[0] == a && ([a] + rest)[1..] == rest;
    assert IndexOf(text, a.surface, cursor) == Some(j);
  }

  /** "木、木。" with two annotations for 木: the second matches after the comma. */
  lemma RepeatedSurfaceExample(text: string, a: Annotation)
    requires text == "木、木。" && a == Annotation("木", "き")
    ensures Locate(text, [a, a]) == [Placement(0, 1, "木", "き"), Placement(2, 3, "木", "き")]
  {
    TreeMatches(text);
    LocatePlacesMatched(text, a, [], 1, 2);
    assert [a] + [] == [a];
    LocatePlacesMatched(text, a, [a], 0, 0);
    assert [a] + [a] == [a, a];
  }

  lemma TreeMatches(text: string)
    requires text == "木、木。"
    ensures MatchesAt(text, "木", 0)
    ensures !MatchesAt(text, "木", 1)
    ensures MatchesAt(text, "木", 2)
  {
    assert text[0..1] == "木";
    assert text[1..2][0] == text[1] == '、';
    assert text[2..3] == "木";
  }
}
