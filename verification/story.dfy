/** The chapter data the reader is given: chapters of sentences, each sentence
    with its text and the (surface, reading) pairs supplied for it. */
module Story {

  /** One furigana annotation: a substring of the sentence and its kana reading. */
  datatype Annotation = Annotation(surface: string, reading: string)

  /** A sentence's Japanese text and its annotations in scan order; a sentence
      without a `readings` field has the empty list. */
  datatype Sentence = Sentence(japanese: string, readings: seq<Annotation>)

  datatype Chapter = Chapter(number: int, sentences: seq<Sentence>)

  /** The loaded chapters by number, and the chapter numbers in the order the
      loader left them (ascending, once sorted). */
  datatype Library = Library(chapterList: seq<int>, chapters: map<int, Chapter>)

  predicate Ascending(nums: seq<int>) {
    forall i, j :: 0 <= i < j < |nums| ==> nums[i] <= nums[j]
  }

  /** The surfaces of every annotation of `ss`, sentence by sentence, in order. */
  function SentenceSurfaces(ss: seq<Sentence>): seq<string> {
    if |ss| == 0 then []
    else Surfaces(ss[0].readings) + SentenceSurfaces(ss[1..])
  }

  function Surfaces(anns: seq<Annotation>): (r: seq<string>)
    ensures |r| == |anns|
    ensures forall i :: 0 <= i < |anns| ==> r[i] == anns[i].surface
  {
    seq(|anns|, i requires 0 <= i < |anns| => anns[i].surface)
  }

  /** A surface is listed exactly when some annotation of some sentence has
      it. */
  lemma {:induction false} SentenceSurfacesMembers(ss: seq<Sentence>)
    ensures forall x :: x in SentenceSurfaces(ss) <==>
      exists i, j :: 0 <= i < |ss| && 0 <= j < |ss[i].readings| && ss[i].readings[j].surface == x
    decreases |ss|
  {
    if |ss| > 0 {
      SentenceSurfacesMembers(ss[1..]);
      forall x
        ensures x in SentenceSurfaces(ss) <==>
          exists i, j :: 0 <= i < |ss| && 0 <= j < |ss[i].readings| && ss[i].readings[j].surface == x
      {
        var here := Surfaces(ss[0].readings);
        if x in here {
          var j :| 0 <= j < |here| && here[j] == x;
          assert ss[0].readings[j].surface == x;
        }
        if exists i, j :: 0 <= i < |ss| && 0 <= j < |ss[i].readings| && ss[i].readings[j].surface == x {
          var i, j :| 0 <= i < |ss| && 0 <= j < |ss[i].readings| && ss[i].readings[j].surface == x;
          if i == 0 {
            assert here[j] == x;
          } else {
            assert ss[1..][i - 1].readings[j].surface == x;
          }
        }
        if x in SentenceSurfaces(ss[1..]) {
          var i, j :| 0 <= i < |ss[1..]| && 0 <= j < |ss[1..][i].readings| && ss[1..][i].readings[j].surface == x;
          assert ss[i + 1].readings[j].surface == x;
        }
      }
    }
  }
}
