/** Rendering a sentence with furigana: plain runs interleaved with ruby runs,
    one per located annotation, whose reading is shown according to the
    display mode and, in the adaptive mode, the exposure counts. */
module Furigana {
  import opened Story
  import opened Okurigana
  import opened Placement
  import opened Exposure

  /** AUTO fades readings out by exposure, ON always shows them, OFF renders
      the bare text. */
  datatype Mode = Auto | On | Off

  /** The modes in the order the toggle steps through them. */
  const Modes: seq<Mode> := [Auto, On, Off]

  /** `FURIGANA_MODES.indexOf(mode)`. */
  function ModeIndex(m: Mode): (i: nat)
    ensures i < |Modes| && Modes[i] == m
  {
    match m
    case Auto => 0
    case On => 1
    case Off => 2
  }

  /** The toggle: the next mode in `Modes`, wrapping round after the last. */
  function CycleMode(m: Mode): (r: Mode)
    ensures r != m
  {
    Modes[(ModeIndex(m) + 1) % |Modes|]
  }

  /** The toggle goes AUTO, ON, OFF and back to AUTO: every mode comes back
      after exactly three presses and not before. */
  lemma CyclePeriod(m: Mode)
    ensures CycleMode(Auto) == On && CycleMode(On) == Off && CycleMode(Off) == Auto
    ensures CycleMode(CycleMode(CycleMode(m))) == m
    ensures CycleMode(CycleMode(m)) != m
  {
  }

  /** A run of output: text with no annotation, or a stem with its reading
      (shown or hidden) followed by its okurigana as plain text. */
  datatype Fragment =
    | Plain(text: string)
    | Ruby(stem: string, reading: string, visible: bool, oku: string)

  /** The characters of the sentence a fragment stands for. */
  function Underlying(f: Fragment): string {
    match f
    case Plain(s) => s
    case Ruby(stem, _, _, oku) => stem + oku
  }

  /** The text of the fragments, in order, with readings left out. */
  function Flatten(frags: seq<Fragment>): string {
    if |frags| == 0 then [] else Underlying(frags[0]) + Flatten(frags[1..])
  }

  /** The ruby fragments, in order. */
  function Rubies(frags: seq<Fragment>): seq<Fragment> {
    if |frags| == 0 then []
    else (if frags[0].Ruby? then [frags[0]] else []) + Rubies(frags[1..])
  }

  /** The output for a sentence and the exposure table after it. */
  datatype Rendered = Rendered(fragments: seq<Fragment>, exposures: Table)

  /** The ruby run for a placement: the reading sits over the stem only. */
  function RubyOf(p: Placement, visible: bool): Fragment {
    var sp := SplitOkurigana(p.surface, p.reading);
    Ruby(sp.stem, sp.reading, visible, sp.oku)
  }

  /** Whether a reading is shown, given how often its surface was seen before:
      always outside AUTO, and in AUTO while under the fade threshold. */
  predicate Shown(mode: Mode, seenBefore: nat) {
    mode != Auto || seenBefore < FadeThreshold
  }

  /** The placements' surfaces, in order. */
  function PlacementSurfaces(ps: seq<Placement>): (r: seq<string>)
    ensures |r| == |ps|
    ensures forall i :: 0 <= i < |ps| ==> r[i] == ps[i].surface
  {
    Surfaces(Sources(ps))
  }

  /** The plain run before a placement starting at `start`, if there is text
      between `pos` and it. */
  function Gap(text: string, pos: nat, start: nat): seq<Fragment>
    requires pos <= start <= |text|
  {
    if start > pos then [Plain(text[pos..start])] else []
  }

  /** Whether a sighting shows its reading, and the table after it. */
  datatype Sighting = Sighting(visible: bool, table: Table)

  /** A placement's sighting of `surface`: in AUTO mode the reading is shown
      while the count read before the sighting is under the threshold, and the
      sighting is recorded; in the other modes it is shown and nothing is
      recorded. */
  function See(mode: Mode, t: Table, surface: string): Sighting {
    if mode == Auto then
      var rec := RecordExposure(t, surface);
      Sighting(rec.before < FadeThreshold, rec.table)
    else Sighting(true, t)
  }

  /** The render loop from text offset `pos` on: the text before each
      placement, if any, as a plain run; then the placement's ruby run, whose
      visibility in AUTO mode is read from the table before the table counts
      this sighting; finally the text after the last placement, if any. */
  function RenderRuns(text: string, ps: seq<Placement>, pos: nat, mode: Mode, t: Table): (r: Rendered)
    requires pos <= |text|
    requires Laid(text, ps, pos)
    ensures t.Keys <= r.exposures.Keys
    ensures mode != Auto ==> r.exposures == t
    decreases |ps|
  {
    if |ps| == 0 then
      Rendered(if pos < |text| then [Plain(text[pos..])] else [], t)
    else
      var p := ps[0];
      assert Genuine(text, p);
      var seen := See(mode, t, p.surface);
      var rest := RenderRuns(text, ps[1..], p.end, mode, seen.table);
      Rendered(Gap(text, pos, p.start) + [RubyOf(p, seen.visible)] + rest.fragments, rest.exposures)
  }

  /** A sentence: the bare text in OFF mode or when it has no annotations,
      otherwise the render loop over its placements. In every mode the
      fragments spell the sentence's text exactly. */
  function RenderSentence(s: Sentence, mode: Mode, t: Table): (r: Rendered)
    ensures Flatten(r.fragments) == s.japanese
  {
    if |s.readings| == 0 || mode == Off then
      assert Flatten([Plain(s.japanese)]) == s.japanese + Flatten([]);
      Rendered([Plain(s.japanese)], t)
    else
      RunsReconstruct(s.japanese, Locate(s.japanese, s.readings), 0, mode, t);
      RenderRuns(s.japanese, Locate(s.japanese, s.readings), 0, mode, t)
  }

  /** The placements a sentence is rendered with; none in OFF mode or for a
      sentence without annotations. */
  function Placed(s: Sentence, mode: Mode): (ps: seq<Placement>)
    ensures |ps| <= |s.readings|
    ensures AllGenuine(s.japanese, ps, 0) && Disjoint(ps) && Laid(s.japanese, ps, 0)
  {
    if |s.readings| == 0 || mode == Off then [] else Locate(s.japanese, s.readings)
  }

  lemma {:induction false} FlattenAppend(a: seq<Fragment>, b: seq<Fragment>)
    ensures Flatten(a + b) == Flatten(a) + Flatten(b)
    decreases |a|
  {
    if |a| == 0 {
      assert a + b == b;
    } else {
      assert (a + b)[0] == a[0] && (a + b)[1..] == a[1..] + b;
      FlattenAppend(a[1..], b);
    }
  }

  lemma {:induction false} RubiesAppend(a: seq<Fragment>, b: seq<Fragment>)
    ensures Rubies(a + b) == Rubies(a) + Rubies(b)
    decreases |a|
  {
    if |a| == 0 {
      assert a + b == b;
    } else {
      assert (a + b)[0] == a[0] && (a + b)[1..] == a[1..] + b;
      RubiesAppend(a[1..], b);
    }
  }

  /** The render loop reproduces the text from `pos` on: plain runs and the
      stem and okurigana of each ruby run, in order, spell it exactly. */
  lemma {:induction false} RunsReconstruct(text: string, ps: seq<Placement>, pos: nat, mode: Mode, t: Table)
    requires pos <= |text|
    requires Laid(text, ps, pos)
    ensures Flatten(RenderRuns(text, ps, pos, mode, t).fragments) == text[pos..]
    decreases |ps|
  {
    if |ps| == 0 {
      if pos < |text| {
        assert Flatten([Plain(text[pos..])]) == text[pos..] + Flatten([]);
      }
    } else {
      var p := ps[0];
      var seen := See(mode, t, p.surface);
      var ruby := RubyOf(p, seen.visible);
      var gap := Gap(text, pos, p.start);
      var rest := RenderRuns(text, ps[1..], p.end, mode, seen.table).fragments;
      RunsUnfold(text, ps, pos, mode, t);
      RunsReconstruct(text, ps[1..], p.end, mode, seen.table);
      FlattenAppend(gap, [ruby] + rest);
      FlattenAppend([ruby], rest);
      RubyFlatten(p, seen.visible);
      GapFlatten(text, pos, p.start);
      SliceSplit(text, pos, p.start, p.end);
    }
  }

  /** One step of the render loop, with the first placement's runs in front. */
  lemma RunsUnfold(text: string, ps: seq<Placement>, pos: nat, mode: Mode, t: Table)
    requires pos <= |text|
    requires Laid(text, ps, pos)
    requires |ps| > 0
    ensures Genuine(text, ps[0]) && pos <= ps[0].start && Laid(text, ps[1..], ps[0].end)
    ensures var seen := See(mode, t, ps[0].surface);
      var rest := RenderRuns(text, ps[1..], ps[0].end, mode, seen.table);
      RenderRuns(text, ps, pos, mode, t)
        == Rendered(Gap(text, pos, ps[0].start) + ([RubyOf(ps[0], seen.visible)] + rest.fragments), rest.exposures)
  {
    var seen := See(mode, t, ps[0].surface);
    var rest := RenderRuns(text, ps[1..], ps[0].end, mode, seen.table);
    assert Gap(text, pos, ps[0].start) + [RubyOf(ps[0], seen.visible)] + rest.fragments
        == Gap(text, pos, ps[0].start) + ([RubyOf(ps[0], seen.visible)] + rest.fragments);
  }

  /** A ruby run stands for its placement's surface. */
  lemma RubyFlatten(p: Placement, visible: bool)
    ensures Flatten([RubyOf(p, visible)]) == p.surface
  {
    assert Flatten([RubyOf(p, visible)]) == Underlying(RubyOf(p, visible)) + Flatten([]);
  }

  lemma GapFlatten(text: string, pos: nat, start: nat)
    requires pos <= start <= |text|
    ensures Flatten(Gap(text, pos, start)) == text[pos..start]
    ensures Rubies(Gap(text, pos, start)) == []
  {
    if start > pos {
      assert Flatten(Gap(text, pos, start)) == text[pos..start] + Flatten([]);
      assert Rubies(Gap(text, pos, start)) == [] + Rubies([]);
    }
  }

  lemma SliceSplit(text: string, a: nat, b: nat, c: nat)
    requires a <= b <= c <= |text|
    ensures text[a..] == text[a..b] + text[b..c] + text[c..]
  {
  }

  /** The ruby runs are one per placement, in order, each carrying the
      placement's split, and each visible exactly when the mode shows it
      given the count of its surface in the starting table plus its sightings
      in the earlier placements. */
  lemma {:induction false} RunsRubies(text: string, ps: seq<Placement>, pos: nat, mode: Mode, t: Table)
    requires pos <= |text|
    requires Laid(text, ps, pos)
    ensures var rubies := Rubies(RenderRuns(text, ps, pos, mode, t).fragments);
      && |rubies| == |ps|
      && forall k :: 0 <= k < |ps| ==> rubies[k] == RubyOf(ps[k], Shown(mode, SeenBefore(t, ps, k)))
    decreases |ps|
  {
    if |ps| > 0 {
      var p := ps[0];
      var seen := See(mode, t, p.surface);
      var ruby := RubyOf(p, seen.visible);
      var gap := Gap(text, pos, p.start);
      var rest := RenderRuns(text, ps[1..], p.end, mode, seen.table).fragments;
      RunsUnfold(text, ps, pos, mode, t);
      RunsRubies(text, ps[1..], p.end, mode, seen.table);
      RubiesAppend(gap, [ruby] + rest);
      RubiesAppend([ruby], rest);
      GapFlatten(text, pos, p.start);
      assert Rubies([ruby]) == [ruby] + Rubies([]);
      RubiesCons(mode, t, ps, Rubies(rest));
    }
  }

  /** The visibility rule carried from the placements after the first (and the
      table after its sighting) to the whole list. */
  lemma RubiesCons(mode: Mode, t: Table, ps: seq<Placement>, later: seq<Fragment>)
    requires |ps| > 0
    requires |later| == |ps| - 1
    requires forall k :: 0 <= k < |later| ==>
      later[k] == RubyOf(ps[1..][k], Shown(mode, SeenBefore(See(mode, t, ps[0].surface).table, ps[1..], k)))
    ensures var rubies := [RubyOf(ps[0], See(mode, t, ps[0].surface).visible)] + later;
      forall k :: 0 <= k < |ps| ==> rubies[k] == RubyOf(ps[k], Shown(mode, SeenBefore(t, ps, k)))
  {
    var rubies := [RubyOf(ps[0], See(mode, t, ps[0].surface).visible)] + later;
    forall k | 0 <= k < |ps|
      ensures rubies[k] == RubyOf(ps[k], Shown(mode, SeenBefore(t, ps, k)))
    {
      if k == 0 {
        SeenBeforeFirst(t, ps);
      } else {
        assert rubies[k] == later[k - 1];
        SeenBeforeShift(mode, t, ps, k);
      }
    }
  }

  /** How often the surface of placement `k` was seen before it: its count in
      the table plus its sightings among the placements before it. */
  function SeenBefore(t: Table, ps: seq<Placement>, k: nat): nat
    requires k < |ps|
  {
    Count(t, ps[k].surface) + multiset(PlacementSurfaces(ps[..k]))[ps[k].surface]
  }

  lemma SeenBeforeFirst(t: Table, ps: seq<Placement>)
    requires 0 < |ps|
    ensures SeenBefore(t, ps, 0) == Count(t, ps[0].surface)
  {
    assert ps[..0] == [];
  }

  lemma SeenBeforeShift(mode: Mode, t: Table, ps: seq<Placement>, k: nat)
    requires 0 < k < |ps|
    ensures Shown(mode, SeenBefore(See(mode, t, ps[0].surface).table, ps[1..], k - 1))
        == Shown(mode, SeenBefore(t, ps, k))
  {
    var s := ps[k].surface;
    assert ps[1..][k - 1] == ps[k];
    assert ps[..k] == [ps[0]] + ps[1..][..k - 1];
    assert PlacementSurfaces(ps[..k]) == [ps[0].surface] + PlacementSurfaces(ps[1..][..k - 1]);
    assert multiset(PlacementSurfaces(ps[..k]))[s]
        == multiset([ps[0].surface])[s] + multiset(PlacementSurfaces(ps[1..][..k - 1]))[s];
  }

  /** In AUTO mode the loop records one sighting per placement, in order;
      in the other modes the table is left as it was. */
  lemma {:induction false} RunsExposures(text: string, ps: seq<Placement>, pos: nat, mode: Mode, t: Table)
    requires pos <= |text|
    requires Laid(text, ps, pos)
    ensures RenderRuns(text, ps, pos, mode, t).exposures
         == if mode == Auto then Tally(t, PlacementSurfaces(ps)) else t
    decreases |ps|
  {
    if |ps| > 0 {
      var p := ps[0];
      RunsUnfold(text, ps, pos, mode, t);
      RunsExposures(text, ps[1..], p.end, mode, See(mode, t, p.surface).table);
      assert PlacementSurfaces(ps)[1..] == PlacementSurfaces(ps[1..]);
    }
  }

  /** Outside AUTO mode the output never depends on the exposure table. */
  lemma {:induction false} RunsIgnoreTable(text: string, ps: seq<Placement>, pos: nat, mode: Mode, t1: Table, t2: Table)
    requires mode != Auto
    requires pos <= |text|
    requires Laid(text, ps, pos)
    ensures RenderRuns(text, ps, pos, mode, t1).fragments == RenderRuns(text, ps, pos, mode, t2).fragments
    decreases |ps|
  {
    if |ps| > 0 {
      RunsUnfold(text, ps, pos, mode, t1);
      RunsUnfold(text, ps, pos, mode, t2);
      RunsIgnoreTable(text, ps[1..], ps[0].end, mode, t1, t2);
    }
  }


  /** In OFF mode, or for a sentence without annotations, the output is the
      bare text as one plain run, with no ruby run and the table untouched. */
  lemma RenderBare(s: Sentence, mode: Mode, t: Table)
    requires mode == Off || |s.readings| == 0
    ensures RenderSentence(s, mode, t) == Rendered([Plain(s.japanese)], t)
    ensures Rubies(RenderSentence(s, mode, t).fragments) == []
  {
    assert Rubies([Plain(s.japanese)]) == [] + Rubies([]);
  }

  /** Some fragment of `fr` is the ruby run for placement `q`, carrying its
      split; it is the `n`-th ruby run of `fr` (counting from 0), and the
      fragments before it spell the text from `pos` up to `q`'s start, so the
      reading sits over exactly the placement's span. */
  predicate RubyAt(text: string, fr: seq<Fragment>, pos: nat, q: Placement, n: nat) {
    && pos <= q.start <= |text|
    && exists j :: 0 <= j < |fr| && fr[j].Ruby? && fr[j] == RubyOf(q, fr[j].visible)
                   && Flatten(fr[..j]) == text[pos..q.start] && |Rubies(fr[..j])| == n
  }

  lemma SliceJoin(text: string, a: nat, b: nat, c: nat, d: nat)
    requires a <= b <= c <= d <= |text|
    ensures text[a..d] == text[a..b] + text[b..c] + text[c..d]
  {
  }

  /** The fragments before position `j` of the later runs, seen from the
      start of the whole output. */
  lemma ShiftPrefix(gap: seq<Fragment>, ruby: Fragment, rest: seq<Fragment>, j: nat)
    requires j <= |rest|
    ensures var before := (gap + ([ruby] + rest))[..|gap| + 1 + j];
      && Flatten(before) == Flatten(gap) + Flatten([ruby]) + Flatten(rest[..j])
      && |Rubies(before)| == |Rubies(gap)| + |Rubies([ruby])| + |Rubies(rest[..j])|
  {
    var tail := [ruby] + rest[..j];
    assert (gap + ([ruby] + rest))[..|gap| + 1 + j] == gap + tail;
    FlattenAppend(gap, tail);
    FlattenAppend([ruby], rest[..j]);
    RubiesAppend(gap, tail);
    RubiesAppend([ruby], rest[..j]);
  }

  /** The first placement's ruby run directly follows the gap before it. */
  lemma RubyAtFirst(text: string, gap: seq<Fragment>, ruby: Fragment, rest: seq<Fragment>, pos: nat, p: Placement)
    requires pos <= p.start <= |text|
    requires Flatten(gap) == text[pos..p.start] && Rubies(gap) == []
    requires ruby.Ruby? && ruby == RubyOf(p, ruby.visible)
    ensures RubyAt(text, gap + ([ruby] + rest), pos, p, 0)
  {
    var fr := gap + ([ruby] + rest);
    assert fr[..|gap|] == gap;
    assert fr[|gap|] == ruby;
  }

  /** Fragment `j` of the later runs, seen from the start of the whole
      output: one ruby run later, after the gap and the placement's text. */
  lemma ShiftFacts(text: string, gap: seq<Fragment>, ruby: Fragment, rest: seq<Fragment>,
                   pos: nat, p: Placement, qstart: nat, j: nat, n: nat)
    requires pos <= p.start && Genuine(text, p) && p.end <= qstart <= |text|
    requires Flatten(gap) == text[pos..p.start] && Rubies(gap) == []
    requires ruby.Ruby? && Flatten([ruby]) == p.surface
    requires j < |rest| && Flatten(rest[..j]) == text[p.end..qstart] && |Rubies(rest[..j])| == n
    ensures var fr := gap + ([ruby] + rest);
      && |gap| + 1 + j < |fr| && fr[|gap| + 1 + j] == rest[j]
      && Flatten(fr[..|gap| + 1 + j]) == text[pos..qstart]
      && |Rubies(fr[..|gap| + 1 + j])| == n + 1
  {
    ShiftPrefix(gap, ruby, rest, j);
    SliceJoin(text, pos, p.start, p.end, qstart);
    assert Rubies([ruby]) == [ruby] + Rubies([]);
  }

  /** A ruby run of the later runs keeps its place once the first
      placement's gap and ruby run are put in front: it becomes one ruby run
      later, and the text before it grows by the gap and the placement. */
  lemma RubyAtShift(text: string, gap: seq<Fragment>, ruby: Fragment, rest: seq<Fragment>,
                    pos: nat, p: Placement, q: Placement, n: nat)
    requires pos <= p.start && Genuine(text, p)
    requires Flatten(gap) == text[pos..p.start] && Rubies(gap) == []
    requires ruby.Ruby? && Flatten([ruby]) == p.surface
    requires RubyAt(text, rest, p.end, q, n)
    ensures RubyAt(text, gap + ([ruby] + rest), pos, q, n + 1)
  {
    var j :| 0 <= j < |rest| && rest[j].Ruby? && rest[j] == RubyOf(q, rest[j].visible)
             && Flatten(rest[..j]) == text[p.end..q.start] && |Rubies(rest[..j])| == n;
    ShiftFacts(text, gap, ruby, rest, pos, p, q.start, j, n);
    var fr := gap + ([ruby] + rest);
    assert fr[|gap| + 1 + j] == rest[j];
  }

  /** The render loop puts each placement's ruby run where the placement is:
      the `k`-th ruby run is placement `k`'s, and everything before it spells
      the text up to that placement's start. */
  lemma {:induction false} RunsPositions(text: string, ps: seq<Placement>, pos: nat, mode: Mode, t: Table)
    requires pos <= |text|
    requires Laid(text, ps, pos)
    ensures forall k :: 0 <= k < |ps| ==> RubyAt(text, RenderRuns(text, ps, pos, mode, t).fragments, pos, ps[k], k)
    decreases |ps|
  {
    if |ps| > 0 {
      var p := ps[0];
      var seen := See(mode, t, p.surface);
      var ruby := RubyOf(p, seen.visible);
      var gap := Gap(text, pos, p.start);
      var rest := RenderRuns(text, ps[1..], p.end, mode, seen.table).fragments;
      RunsUnfold(text, ps, pos, mode, t);
      GapFlatten(text, pos, p.start);
      RubyFlatten(p, seen.visible);
      RunsPositions(text, ps[1..], p.end, mode, seen.table);
      forall k | 0 <= k < |ps|
        ensures RubyAt(text, gap + ([ruby] + rest), pos, ps[k], k)
      {
        if k == 0 {
          RubyAtFirst(text, gap, ruby, rest, pos, p);
        } else {
          assert ps[1..][k - 1] == ps[k];
          RubyAtShift(text, gap, ruby, rest, pos, p, ps[k], k - 1);
        }
      }
    }
  }

  /** Each placement's ruby run sits over that placement's own span of the
      sentence: a repeated surface gets its reading over the occurrence the
      placement loop chose for it. */
  lemma RenderPositions(s: Sentence, mode: Mode, t: Table)
    ensures var ps := Placed(s, mode);
      forall k :: 0 <= k < |ps| ==> RubyAt(s.japanese, RenderSentence(s, mode, t).fragments, 0, ps[k], k)
  {
    if |s.readings| > 0 && mode != Off {
      RunsPositions(s.japanese, Locate(s.japanese, s.readings), 0, mode, t);
    }
  }

  /** One ruby run per placement, in placement order: in ON mode all visible,
      in AUTO mode visible exactly when the surface's count in the table, plus
      its sightings earlier in the sentence, is below the fade threshold. */
  lemma RenderVisibility(s: Sentence, mode: Mode, t: Table)
    ensures var ps := Placed(s, mode);
      var rubies := Rubies(RenderSentence(s, mode, t).fragments);
      && |rubies| == |ps|
      && forall k :: 0 <= k < |ps| ==>
           rubies[k] == RubyOf(ps[k], mode == On || SeenBefore(t, ps, k) < FadeThreshold)
  {
    if |s.readings| == 0 || mode == Off {
      RenderBare(s, mode, t);
    } else {
      RunsRubies(s.japanese, Locate(s.japanese, s.readings), 0, mode, t);
    }
  }

  /** AUTO mode counts each rendered placement once: every surface's count
      rises by its number of placements in the sentence, and no other count
      changes. ON and OFF leave the table untouched. */
  lemma RenderCounts(s: Sentence, mode: Mode, t: Table)
    ensures var r := RenderSentence(s, mode, t);
      && (mode == Auto ==>
            forall x :: Count(r.exposures, x) == Count(t, x) + multiset(PlacementSurfaces(Placed(s, mode)))[x])
      && (mode != Auto ==> r.exposures == t)
  {
    if |s.readings| > 0 && mode != Off {
      RunsExposures(s.japanese, Locate(s.japanese, s.readings), 0, mode, t);
      TallyCount(t, PlacementSurfaces(Locate(s.japanese, s.readings)));
    }
  }

  /** The fragments of each sentence of a chapter and the table after the
      last one, the table being threaded from sentence to sentence. */
  datatype ChapterView = ChapterView(sentences: seq<seq<Fragment>>, exposures: Table)

  /** The sentences of a chapter rendered in order, each starting from the
      table the previous one left. */
  function RenderSentences(ss: seq<Sentence>, mode: Mode, t: Table): (v: ChapterView)
    ensures |v.sentences| == |ss|
    decreases |ss|
  {
    if |ss| == 0 then ChapterView([], t)
    else
      var first := RenderSentence(ss[0], mode, t);
      var rest := RenderSentences(ss[1..], mode, first.exposures);
      ChapterView([first.fragments] + rest.sentences, rest.exposures)
  }

  /** Opening a chapter: in AUTO mode the live table is reseeded from the
      chapters before it; in the other modes the old live table is kept, but
      it is never read. In AUTO mode sentence `i` renders from the snapshot
      of the earlier chapters with the surfaces placed in the sentences
      before it counted on top; otherwise the chapter renders as it would
      from any table. */
  function RenderReader(lib: Library, ch: Chapter, mode: Mode, live: Table): (v: ChapterView)
    ensures |v.sentences| == |ch.sentences|
    ensures mode == Auto ==>
      forall i :: 0 <= i < |ch.sentences| ==>
        v.sentences[i] == RenderSentence(ch.sentences[i], Auto,
                            Tally(PriorExposures(ch.number, lib), ChapterPlacedSurfaces(ch.sentences[..i], Auto))).fragments
    ensures mode != Auto ==> v.sentences == RenderSentences(ch.sentences, mode, map[]).sentences
  {
    var seed := if mode == Auto then PriorExposures(ch.number, lib) else live;
    SentencesFromSeed(ch.sentences, mode, seed);
    if mode != Auto then
      SentencesIgnoreTable(ch.sentences, mode, live, map[]);
      RenderSentences(ch.sentences, mode, seed)
    else
      RenderSentences(ch.sentences, mode, seed)
  }

  /** The surfaces placed in each sentence of `ss`, sentence by sentence. */
  function ChapterPlacedSurfaces(ss: seq<Sentence>, mode: Mode): seq<string>
    decreases |ss|
  {
    if |ss| == 0 then [] else PlacementSurfaces(Placed(ss[0], mode)) + ChapterPlacedSurfaces(ss[1..], mode)
  }

  /** The table a sentence leaves: in AUTO mode the table it started from
      with one sighting per placement, in order; otherwise unchanged. */
  lemma SentenceExposures(s: Sentence, mode: Mode, t: Table)
    ensures RenderSentence(s, mode, t).exposures
         == if mode == Auto then Tally(t, PlacementSurfaces(Placed(s, mode))) else t
  {
    if |s.readings| > 0 && mode != Off {
      RunsExposures(s.japanese, Locate(s.japanese, s.readings), 0, mode, t);
    } else {
      assert PlacementSurfaces(Placed(s, mode)) == [];
    }
  }

  /** The table after a chapter: in AUTO mode the starting table with one
      sighting per placement of every sentence, in order; otherwise
      unchanged. */
  lemma {:induction false} SentencesExposures(ss: seq<Sentence>, mode: Mode, t: Table)
    ensures RenderSentences(ss, mode, t).exposures
         == if mode == Auto then Tally(t, ChapterPlacedSurfaces(ss, mode)) else t
    decreases |ss|
  {
    if |ss| > 0 {
      var here := PlacementSurfaces(Placed(ss[0], mode));
      var first := RenderSentence(ss[0], mode, t);
      SentenceExposures(ss[0], mode, t);
      SentencesExposures(ss[1..], mode, first.exposures);
      TallyAppend(t, here, ChapterPlacedSurfaces(ss[1..], mode));
    }
  }

  /** Sentence `i` of a chapter renders from the starting table with the
      sightings of the sentences before it recorded (in AUTO mode), or from
      the starting table itself (otherwise). */
  lemma {:induction false} SentencesFromSeed(ss: seq<Sentence>, mode: Mode, t: Table)
    ensures forall i :: 0 <= i < |ss| ==>
      RenderSentences(ss, mode, t).sentences[i]
        == RenderSentence(ss[i], mode, if mode == Auto then Tally(t, ChapterPlacedSurfaces(ss[..i], mode)) else t).fragments
    decreases |ss|
  {
    if |ss| > 0 {
      var first := RenderSentence(ss[0], mode, t);
      var v := RenderSentences(ss, mode, t);
      SentenceExposures(ss[0], mode, t);
      SentencesFromSeed(ss[1..], mode, first.exposures);
      forall i | 0 <= i < |ss|
        ensures v.sentences[i]
             == RenderSentence(ss[i], mode, if mode == Auto then Tally(t, ChapterPlacedSurfaces(ss[..i], mode)) else t).fragments
      {
        if i == 0 {
          assert ss[..0] == [];
        } else {
          var here := PlacementSurfaces(Placed(ss[0], mode));
          assert ss[1..][i - 1] == ss[i];
          assert ss[..i][0] == ss[0] && ss[..i][1..] == ss[1..][..i - 1];
          TallyAppend(t, here, ChapterPlacedSurfaces(ss[1..][..i - 1], mode));
        }
      }
    }
  }

  /** The adaptive rule over a whole chapter, given the ascending chapter list
      the loader produces: placement `k` of sentence `i` shows its reading iff
      its surface's annotations in the earlier chapters, its placements in
      the sentences before `i`, and its placements before `k` in sentence `i`
      number fewer than five together. */
  lemma ChapterVisibility(lib: Library, ch: Chapter, live: Table, i: nat, k: nat)
    requires Ascending(lib.chapterList)
    requires i < |ch.sentences| && k < |Placed(ch.sentences[i], Auto)|
    ensures var ps := Placed(ch.sentences[i], Auto);
      var x := ps[k].surface;
      var earlier := ChapterSurfaces(Below(lib.chapterList, ch.number), lib.chapters);
      var rubies := Rubies(RenderReader(lib, ch, Auto, live).sentences[i]);
      k < |rubies|
      && rubies[k] == RubyOf(ps[k], multiset(earlier)[x]
                                    + multiset(ChapterPlacedSurfaces(ch.sentences[..i], Auto))[x]
                                    + multiset(PlacementSurfaces(ps[..k]))[x] < FadeThreshold)
  {
    var s := ch.sentences[i];
    var ps := Placed(s, Auto);
    var prior := PriorExposures(ch.number, lib);
    var before := ChapterPlacedSurfaces(ch.sentences[..i], Auto);
    var seed := Tally(prior, before);
    PriorExposuresCount(ch.number, lib);
    TallyCount(prior, before);
    RenderVisibility(s, Auto, seed);
    assert SeenBefore(seed, ps, k) == Count(seed, ps[k].surface) + multiset(PlacementSurfaces(ps[..k]))[ps[k].surface];
  }

  lemma {:induction false} SentencesIgnoreTable(ss: seq<Sentence>, mode: Mode, t1: Table, t2: Table)
    requires mode != Auto
    ensures RenderSentences(ss, mode, t1).sentences == RenderSentences(ss, mode, t2).sentences
    decreases |ss|
  {
    if |ss| > 0 {
      var s := ss[0];
      if |s.readings| > 0 && mode != Off {
        RunsIgnoreTable(s.japanese, Locate(s.japanese, s.readings), 0, mode, t1, t2);
      }
      RenderCounts(s, mode, t1);
      RenderCounts(s, mode, t2);
      SentencesIgnoreTable(ss[1..], mode, RenderSentence(s, mode, t1).exposures, RenderSentence(s, mode, t2).exposures);
    }
  }

  /** What a chapter shows depends only on the library, the chapter and the
      mode: never on what the live table held from an earlier rendering, so
      reopening a chapter or toggling the mode does not compound counts. */
  lemma RenderReaderDeterministic(lib: Library, ch: Chapter, mode: Mode, live1: Table, live2: Table)
    ensures RenderReader(lib, ch, mode, live1).sentences == RenderReader(lib, ch, mode, live2).sentences
  {
    if mode != Auto {
      SentencesIgnoreTable(ch.sentences, mode, live1, live2);
    }
  }

  /** Every sentence of the chapter is rendered, and each one's fragments
      spell its text exactly. */
  lemma {:induction false} SentencesReconstruct(ss: seq<Sentence>, mode: Mode, t: Table)
    ensures var v := RenderSentences(ss, mode, t);
      forall i :: 0 <= i < |ss| ==> Flatten(v.sentences[i]) == ss[i].japanese
    decreases |ss|
  {
    if |ss| > 0 {
      var first := RenderSentence(ss[0], mode, t);
      SentencesReconstruct(ss[1..], mode, first.exposures);
    }
  }
}
