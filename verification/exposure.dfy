/** Exposure counts: how many times each annotated surface has been seen, both
    as the snapshot computed from earlier chapters and as the live counters the
    adaptive mode bumps while a chapter is rendered. */
module Exposure {
  import opened Story

  /** In adaptive mode a reading stays visible while its surface has been seen
      fewer than this many times. */
  const FadeThreshold: nat := 5

  /** Surface to count; a surface missing from the table has count 0. */
  type Table = map<string, nat>

  function Count(t: Table, s: string): nat {
    if s in t then t[s] else 0
  }

  /** The count a surface had before an occurrence, and the table after it. */
  datatype Recorded = Recorded(before: nat, table: Table)

  /** One sighting of `s`: reads its count, then stores the count plus one. */
  function RecordExposure(t: Table, s: string): (r: Recorded)
    ensures r.before == Count(t, s)
    ensures Count(r.table, s) == Count(t, s) + 1
    ensures forall x :: x != s ==> Count(r.table, x) == Count(t, x)
    ensures r.table.Keys == t.Keys + {s}
  {
    var c := Count(t, s);
    Recorded(c, t[s := c + 1])
  }

  /** Records a sighting of each of `ss`, in order. */
  function Tally(t: Table, ss: seq<string>): Table
    decreases |ss|
  {
    if |ss| == 0 then t else Tally(RecordExposure(t, ss[0]).table, ss[1..])
  }

  /** Tallying raises each count by the number of times the surface occurs in
      `ss`. */
  lemma {:induction false} TallyCount(t: Table, ss: seq<string>)
    ensures forall x :: Count(Tally(t, ss), x) == Count(t, x) + multiset(ss)[x]
    decreases |ss|
  {
    if |ss| > 0 {
      TallyCount(RecordExposure(t, ss[0]).table, ss[1..]);
      assert ss == [ss[0]] + ss[1..];
      assert multiset(ss) == multiset{ss[0]} + multiset(ss[1..]);
    }
  }

  /** Tallying adds exactly the surfaces of `ss` as keys. */
  lemma {:induction false} TallyKeys(t: Table, ss: seq<string>)
    ensures Tally(t, ss).Keys == t.Keys + set x | x in ss
    decreases |ss|
  {
    if |ss| > 0 {
      TallyKeys(RecordExposure(t, ss[0]).table, ss[1..]);
      assert ss == [ss[0]] + ss[1..];
      assert (set x | x in ss) == {ss[0]} + set x | x in ss[1..];
    }
  }

  /** Tallying two lists one after the other is tallying their concatenation. */
  lemma {:induction false} TallyAppend(t: Table, a: seq<string>, b: seq<string>)
    ensures Tally(t, a + b) == Tally(Tally(t, a), b)
    decreases |a|
  {
    if |a| > 0 {
      assert (a + b)[0] == a[0] && (a + b)[1..] == a[1..] + b;
      TallyAppend(RecordExposure(t, a[0]).table, a[1..], b);
    } else {
      assert a + b == b;
    }
  }

  /** The chapter numbers of `nums` below `n`, in order. */
  function Below(nums: seq<int>, n: int): (r: seq<int>)
    ensures forall k :: k in r <==> k in nums && k < n
  {
    if |nums| == 0 then []
    else (if nums[0] < n then [nums[0]] else []) + Below(nums[1..], n)
  }

  /** Every annotation surface of the chapters numbered in `nums` that are
      loaded, chapter by chapter, in order; a number with no chapter is
      skipped. */
  function ChapterSurfaces(nums: seq<int>, chapters: map<int, Chapter>): seq<string> {
    if |nums| == 0 then []
    else
      (if nums[0] in chapters then SentenceSurfaces(chapters[nums[0]].sentences) else [])
      + ChapterSurfaces(nums[1..], chapters)
  }

  /** The loop over the chapter list: stops at the first chapter numbered `n`
      or more, skips a number with no loaded chapter, and otherwise counts
      every annotation of every sentence. */
  function PriorFrom(acc: Table, nums: seq<int>, n: int, chapters: map<int, Chapter>): (r: Table)
    ensures forall x :: Count(acc, x) <= Count(r, x)
    decreases |nums|
  {
    if |nums| == 0 || nums[0] >= n then acc
    else if nums[0] !in chapters then PriorFrom(acc, nums[1..], n, chapters)
    else
      var here := SentenceSurfaces(chapters[nums[0]].sentences);
      TallyCount(acc, here);
      PriorFrom(Tally(acc, here), nums[1..], n, chapters)
  }

  /** The prior-exposure snapshot for chapter `n`, built from an empty table. */
  function PriorExposures(n: int, lib: Library): (r: Table)
    ensures |lib.chapterList| == 0 || n <= lib.chapterList[0] ==> r == map[]
  {
    PriorFrom(map[], lib.chapterList, n, lib.chapters)
  }

  /** In an ascending list every number after the first one at or above `n`
      is at or above `n` too. */
  lemma {:induction false} BelowOfHighSuffix(nums: seq<int>, n: int)
    requires Ascending(nums)
    requires |nums| > 0 && nums[0] >= n
    ensures Below(nums, n) == []
    decreases |nums|
  {
    if |nums| > 1 {
      BelowOfHighSuffix(nums[1..], n);
    }
  }

  /** With the chapter list ascending, the `break` in the loop is the same as
      filtering for the chapters numbered below `n`. */
  lemma {:induction false} PriorFromAscending(acc: Table, nums: seq<int>, n: int, chapters: map<int, Chapter>)
    requires Ascending(nums)
    ensures PriorFrom(acc, nums, n, chapters) == Tally(acc, ChapterSurfaces(Below(nums, n), chapters))
    decreases |nums|
  {
    if |nums| == 0 {
    } else if nums[0] >= n {
      BelowOfHighSuffix(nums, n);
    } else {
      var here := if nums[0] in chapters then SentenceSurfaces(chapters[nums[0]].sentences) else [];
      var below := Below(nums[1..], n);
      assert Below(nums, n) == [nums[0]] + below;
      assert ([nums[0]] + below)[1..] == below;
      assert ChapterSurfaces(Below(nums, n), chapters) == here + ChapterSurfaces(below, chapters);
      TallyAppend(acc, here, ChapterSurfaces(below, chapters));
      PriorFromAscending(Tally(acc, here), nums[1..], n, chapters);
      if nums[0] !in chapters {
        assert Tally(acc, here) == acc;
      }
    }
  }

  /** Given an ascending chapter list, the snapshot for chapter `n` counts each
      surface exactly as often as it is annotated in the chapters numbered
      below `n`, and has no other keys. */
  lemma PriorExposuresCount(n: int, lib: Library)
    requires Ascending(lib.chapterList)
    ensures var earlier := ChapterSurfaces(Below(lib.chapterList, n), lib.chapters);
      && (forall s :: Count(PriorExposures(n, lib), s) == multiset(earlier)[s])
      && PriorExposures(n, lib).Keys == set s | s in earlier
  {
    var earlier := ChapterSurfaces(Below(lib.chapterList, n), lib.chapters);
    PriorFromAscending(map[], lib.chapterList, n, lib.chapters);
    TallyCount(map[], earlier);
    TallyKeys(map[], earlier);
  }

  /** The snapshot for chapter `n` reads nothing of a chapter numbered `n` or
      more: two libraries with the same chapter list that agree below `n`
      give the same snapshot, however the later chapters differ. */
  lemma {:induction false} PriorExposuresOnlyEarlier(n: int, lib1: Library, lib2: Library)
    requires lib1.chapterList == lib2.chapterList
    requires forall k :: k < n ==> (k in lib1.chapters <==> k in lib2.chapters)
    requires forall k :: k < n && k in lib1.chapters ==> lib1.chapters[k] == lib2.chapters[k]
    ensures PriorExposures(n, lib1) == PriorExposures(n, lib2)
  {
    PriorFromOnlyEarlier(map[], lib1.chapterList, n, lib1.chapters, lib2.chapters);
  }

  lemma {:induction false} PriorFromOnlyEarlier(acc: Table, nums: seq<int>, n: int, c1: map<int, Chapter>, c2: map<int, Chapter>)
    requires forall k :: k < n ==> (k in c1 <==> k in c2)
    requires forall k :: k < n && k in c1 ==> c1[k] == c2[k]
    ensures PriorFrom(acc, nums, n, c1) == PriorFrom(acc, nums, n, c2)
    decreases |nums|
  {
    if |nums| > 0 && nums[0] < n {
      if nums[0] in c1 {
        PriorFromOnlyEarlier(Tally(acc, SentenceSurfaces(c1[nums[0]].sentences)), nums[1..], n, c1, c2);
      } else {
        PriorFromOnlyEarlier(acc, nums[1..], n, c1, c2);
      }
    }
  }
}
