/** Splitting an annotated word into the kanji stem that carries the reading and
    the trailing kana (okurigana) that is already spelled out in the text. */
module Okurigana {
  import opened Text

  /** The stem to put the reading over, the reading of the stem alone, and the
      okurigana rendered as plain text after it. */
  datatype Split = Split(stem: string, reading: string, oku: string)

  /** Length of the maximal run of kana at the end of `s`. */
  function TrailingKana(s: string): (n: nat)
    ensures n <= |s|
    ensures AllKana(s[|s| - n..])
    ensures n < |s| ==> !IsKana(s[|s| - 1 - n])
  {
    if |s| == 0 || !IsKana(s[|s| - 1]) then 0
    else
      var n := 1 + TrailingKana(s[..|s| - 1]);
      assert s[|s| - n..] == s[..|s| - 1][|s| - n..] + [s[|s| - 1]];
      n
  }

  /** Strips the trailing kana run of `surface` when `reading` ends with exactly
      those kana; otherwise leaves the pair whole with no okurigana. A surface
      without trailing kana, or made only of kana, is never split. */
  function SplitOkurigana(surface: string, reading: string): (r: Split)
    // The text is preserved in every branch.
    ensures r.stem + r.oku == surface
    // A split strips the same kana from both ends and leaves a kanji-ending stem.
    ensures r.oku != [] ==>
      && r.reading + r.oku == reading
      && AllKana(r.oku)
      && r.stem != []
      && !IsKana(r.stem[|r.stem| - 1])
    // Otherwise the input comes back unchanged.
    ensures r.oku == [] ==> r == Split(surface, reading, [])
    // A split happens exactly when the trailing kana run is proper and the
    // reading ends with it.
    ensures r.oku != [] <==>
      (var t := TrailingKana(surface);
       0 < t < |surface| && EndsWith(reading, surface[|surface| - t..]))
  {
    var trailing := TrailingKana(surface);
    if trailing == 0 || trailing == |surface| then
      Split(surface, reading, [])
    else
      var oku := surface[|surface| - trailing..];
      if EndsWith(reading, oku) then
        assert surface == surface[..|surface| - trailing] + oku;
        assert reading == reading[..|reading| - trailing] + oku;
        Split(surface[..|surface| - trailing], reading[..|reading| - trailing], oku)
      else
        Split(surface, reading, [])
  }

  /** splitOkurigana("待つ", "まつ"): the okurigana つ is stripped. */
  lemma SplitMatsu()
    ensures SplitOkurigana("待つ", "まつ") == Split("待", "ま", "つ")
  {
    assert TrailingKana("待") == 0;
    assert "待つ"[..1] == "待";
    assert TrailingKana("待つ") == 1;
    assert "待つ"[1..] == "つ";
    assert EndsWith("まつ", "つ");
  }

  /** splitOkurigana("少し", "すこし"): the reading keeps two kana over one kanji. */
  lemma SplitSukoshi()
    ensures SplitOkurigana("少し", "すこし") == Split("少", "すこ", "し")
  {
    assert TrailingKana("少") == 0;
    assert "少し"[..1] == "少";
    assert TrailingKana("少し") == 1;
    assert "少し"[1..] == "し";
    assert EndsWith("すこし", "し");
  }

  /** splitOkurigana("帽子", "ぼうし"): no trailing kana, so no split. */
  lemma SplitBoushi()
    ensures SplitOkurigana("帽子", "ぼうし") == Split("帽子", "ぼうし", "")
  {
    assert TrailingKana("帽子") == 0;
  }

  /** A sound change: the reading はしつ does not end with る, so 走る stays whole. */
  lemma SplitSoundChange()
    ensures SplitOkurigana("走る", "はしつ") == Split("走る", "はしつ", "")
  {
    assert TrailingKana("走") == 0;
    assert "走る"[..1] == "走";
    assert TrailingKana("走る") == 1;
    assert "走る"[1..] == "る";
    assert !EndsWith("はしつ", "る");
  }

  /** A surface made only of kana is never split. */
  lemma SplitAllKana()
    ensures SplitOkurigana("ある", "ある") == Split("ある", "ある", "")
  {
    var s := "ある";
    assert IsKana(s[0]) && IsKana(s[1]);
    assert TrailingKana("ある") == 2;
  }
}
