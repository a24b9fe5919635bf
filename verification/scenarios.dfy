/** Whole sentences rendered end to end. */
module Scenarios {
  import opened Text
  import opened Story
  import opened Okurigana
  import opened Placement
  import opened Exposure
  import opened Furigana

  lemma SchoolMatches(text: string)
    requires text == "今日は学校に行く。"
    ensures MatchesAt(text, "今日", 0)
    ensures !MatchesAt(text, "学校", 2) && MatchesAt(text, "学校", 3)
    ensures !MatchesAt(text, "行く", 5) && MatchesAt(text, "行く", 6)
    ensures text[2..3] == "は" && text[5..6] == "に" && text[8..] == "。"
  {
    assert text[0..2] == "今日";
    assert text[2..4][0] == 'は';
    assert text[3..5] == "学校";
    assert text[5..7][0] == 'に';
    assert text[6..8] == "行く";
  }

  lemma SchoolSplits()
    ensures SplitOkurigana("今日", "きょう") == Split("今日", "きょう", "")
    ensures SplitOkurigana("学校", "がっこう") == Split("学校", "がっこう", "")
    ensures SplitOkurigana("行く", "いく") == Split("行", "い", "く")
  {
    assert TrailingKana("今日") == 0;
    assert TrailingKana("学校") == 0;
    assert TrailingKana("行") == 0;
    assert "行く"[..1] == "行";
    assert TrailingKana("行く") == 1;
    assert "行く"[1..] == "く";
    assert EndsWith("いく", "く");
  }

  /** The placement loop over three annotations whose surfaces (two
      characters each) are found at offsets 0, 3 and 6 with nothing earlier
      after each cursor: each lands at its own occurrence. */
  lemma ThreePlacements(text: string, a1: Annotation, a2: Annotation, a3: Annotation)
    requires |text| == 9 && |a1.surface| == 2 && |a2.surface| == 2 && |a3.surface| == 2
    requires MatchesAt(text, a1.surface, 0)
    requires !MatchesAt(text, a2.surface, 2) && MatchesAt(text, a2.surface, 3)
    requires !MatchesAt(text, a3.surface, 5) && MatchesAt(text, a3.surface, 6)
    ensures LocateFrom(text, [a1, a2, a3], 0)
         == [Placement(0, 2, a1.surface, a1.reading), Placement(3, 5, a2.surface, a2.reading),
             Placement(6, 8, a3.surface, a3.reading)]
  {
    TwoPlacements(text, a2, a3);
    LocatePlacesMatched(text, a1, [a2, a3], 0, 0);
    assert [a1] + [a2, a3] == [a1, a2, a3];
  }

  lemma TwoPlacements(text: string, a2: Annotation, a3: Annotation)
    requires |text| == 9 && |a2.surface| == 2 && |a3.surface| == 2
    requires !MatchesAt(text, a2.surface, 2) && MatchesAt(text, a2.surface, 3)
    requires !MatchesAt(text, a3.surface, 5) && MatchesAt(text, a3.surface, 6)
    ensures LocateFrom(text, [a2, a3], 2)
         == [Placement(3, 5, a2.surface, a2.reading), Placement(6, 8, a3.surface, a3.reading)]
  {
    LocatePlacesMatched(text, a3, [], 5, 6);
    assert [a3] + [] == [a3];
    LocatePlacesMatched(text, a2, [a3], 2, 3);
    assert [a2] + [a3] == [a2, a3];
  }

  /** The render loop over a single placement. */
  lemma LastRun(text: string, p: Placement, pos: nat, mode: Mode, t: Table)
    requires pos <= p.start && Genuine(text, p)
    ensures Laid(text, [p], pos)
    ensures var seen := See(mode, t, p.surface);
      RenderRuns(text, [p], pos, mode, t)
        == Rendered(Gap(text, pos, p.start) + [RubyOf(p, seen.visible)]
                    + (if p.end < |text| then [Plain(text[p.end..])] else []), seen.table)
  {
    assert [p][1..] == [];
    assert Laid(text, [p], pos);
  }

  /** The render loop in ON mode over three placements at [0, 2), [3, 5)
      and [6, 8) of a nine-character text. */
  lemma ThreeRunsOn(text: string, p1: Placement, p2: Placement, p3: Placement, t: Table)
    requires |text| == 9
    requires p1.start == 0 && p1.end == 2 && p2.start == 3 && p2.end == 5 && p3.start == 6 && p3.end == 8
    requires Genuine(text, p1) && Genuine(text, p2) && Genuine(text, p3)
    ensures Laid(text, [p1, p2, p3], 0)
    ensures RenderRuns(text, [p1, p2, p3], 0, On, t)
         == Rendered([RubyOf(p1, true), Plain(text[2..3]), RubyOf(p2, true), Plain(text[5..6]),
                      RubyOf(p3, true), Plain(text[8..])], t)
  {
    TwoRunsOn(text, p2, p3, t);
    var ps := [p1, p2, p3];
    assert ps[1..] == [p2, p3];
    assert Laid(text, ps, 0);
    RunsUnfold(text, ps, 0, On, t);
    assert Gap(text, 0, 0) == [];
  }

  lemma TwoRunsOn(text: string, p2: Placement, p3: Placement, t: Table)
    requires |text| == 9
    requires p2.start == 3 && p2.end == 5 && p3.start == 6 && p3.end == 8
    requires Genuine(text, p2) && Genuine(text, p3)
    ensures Laid(text, [p2, p3], 2)
    ensures RenderRuns(text, [p2, p3], 2, On, t)
         == Rendered([Plain(text[2..3]), RubyOf(p2, true), Plain(text[5..6]), RubyOf(p3, true), Plain(text[8..])], t)
  {
    LastRun(text, p3, 5, On, t);
    assert Gap(text, 5, 6) == [Plain(text[5..6])];
    var ps := [p2, p3];
    assert ps[1..] == [p3];
    assert Laid(text, ps, 2);
    RunsUnfold(text, ps, 2, On, t);
    assert Gap(text, 2, 3) == [Plain(text[2..3])];
  }

  /** 今日は学校に行く。 in ON mode: three ruby runs, the last split into 行 and
      its okurigana く, between the plain particles は and に and the final
      full stop; the exposure table is untouched. */
  lemma SchoolScenario(text: string, a1: Annotation, a2: Annotation, a3: Annotation, t: Table)
    requires text == "今日は学校に行く。"
    requires a1 == Annotation("今日", "きょう")
    requires a2 == Annotation("学校", "がっこう")
    requires a3 == Annotation("行く", "いく")
    ensures RenderSentence(Sentence(text, [a1, a2, a3]), On, t)
         == Rendered([Ruby("今日", "きょう", true, ""), Plain("は"),
                      Ruby("学校", "がっこう", true, ""), Plain("に"),
                      Ruby("行", "い", true, "く"), Plain("。")], t)
  {
    SchoolMatches(text);
    SchoolSplits();
    ThreePlacements(text, a1, a2, a3);
    ThreeRunsOn(text, Placement(0, 2, "今日", "きょう"), Placement(3, 5, "学校", "がっこう"),
                Placement(6, 8, "行く", "いく"), t);
  }

  /** The render loop in AUTO mode over two one-character placements at
      [0, 1) and [2, 3) of a four-character text. */
  lemma TwoRunsAuto(text: string, p1: Placement, p2: Placement, t: Table)
    requires |text| == 4
    requires p1.start == 0 && p1.end == 1 && p2.start == 2 && p2.end == 3
    requires Genuine(text, p1) && Genuine(text, p2)
    ensures Laid(text, [p1, p2], 0)
    ensures var s1 := See(Auto, t, p1.surface);
      var s2 := See(Auto, s1.table, p2.surface);
      RenderRuns(text, [p1, p2], 0, Auto, t)
        == Rendered([RubyOf(p1, s1.visible), Plain(text[1..2]), RubyOf(p2, s2.visible), Plain(text[3..])], s2.table)
  {
    var s1 := See(Auto, t, p1.surface);
    var s2 := See(Auto, s1.table, p2.surface);
    LastRun(text, p2, 1, Auto, s1.table);
    assert Gap(text, 1, 2) == [Plain(text[1..2])];
    var tail := RenderRuns(text, [p2], 1, Auto, s1.table);
    assert tail.fragments == [Plain(text[1..2]), RubyOf(p2, s2.visible), Plain(text[3..])];
    var ps := [p1, p2];
    assert ps[1..] == [p2];
    assert Laid(text, ps, 0);
    RunsUnfold(text, ps, 0, Auto, t);
    assert Gap(text, 0, 0) == [];
  }

  /** 木、木。 in AUTO mode after 木 has been seen four times: the first 木 still
      shows its reading, the second (its fifth sighting before it) hides it,
      and the table ends with a count of six. */
  lemma FadeScenario(text: string, a: Annotation, t: Table)
    requires text == "木、木。" && a == Annotation("木", "き")
    requires t == map["木" := 4]
    ensures var r := RenderSentence(Sentence(text, [a, a]), Auto, t);
      && r.fragments == [Ruby("木", "き", true, ""), Plain("、"), Ruby("木", "き", false, ""), Plain("。")]
      && r.exposures == map["木" := 6]
  {
    RepeatedSurfaceExample(text, a);
    TreeMatches(text);
    assert TrailingKana("木") == 0;
    assert text[1..2] == "、" && text[3..] == "。";
    var t1 := map["木" := 5];
    assert See(Auto, t, "木") == Sighting(true, t1);
    assert See(Auto, t1, "木") == Sighting(false, map["木" := 6]);
    TwoRunsAuto(text, Placement(0, 1, "木", "き"), Placement(2, 3, "木", "き"), t);
  }
}
