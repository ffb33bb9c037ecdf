/** The handling of a speech-recognition result event shared by the two voice components:
    the results from `resultIndex` on are split into the final text and the interim text. */
module SpeechResults {

  /** One recognition result: the transcript of its best alternative and whether it is
      final. */
  datatype SpeechResult = SpeechResult(transcript: string, isFinal: bool)

  /** The results the handler visits: those from `resultIndex` to the end, none when the
      index is past the end. */
  function Window(results: seq<SpeechResult>, resultIndex: nat): seq<SpeechResult> {
    if resultIndex <= |results| then results[resultIndex..] else []
  }

  /** The transcripts of the final results, in order. */
  function Finals(rs: seq<SpeechResult>): string {
    if rs == [] then ""
    else Finals(rs[..|rs| - 1]) + (if rs[|rs| - 1].isFinal then rs[|rs| - 1].transcript else "")
  }

  /** The transcripts of the other results, in order. */
  function Interims(rs: seq<SpeechResult>): string {
    if rs == [] then ""
    else Interims(rs[..|rs| - 1]) + (if rs[|rs| - 1].isFinal then "" else rs[|rs| - 1].transcript)
  }

  /** All transcripts, in order. */
  function AllText(rs: seq<SpeechResult>): string {
    if rs == [] then "" else AllText(rs[..|rs| - 1]) + rs[|rs| - 1].transcript
  }

  /** The `for` loop of `onresult`: each visited result's transcript is appended to the final
      or to the interim text according to its flag. */
  method Partition(results: seq<SpeechResult>, resultIndex: nat) returns (final: string, interim: string)
    ensures final == Finals(Window(results, resultIndex))
    ensures interim == Interims(Window(results, resultIndex))
  {
    final, interim := "", "";
    var i := resultIndex;
    while i < |results|
      invariant resultIndex <= i
      invariant i <= |results| || (i == resultIndex && final == "" && interim == "")
      invariant i <= |results| ==> final == Finals(results[resultIndex..i])
      invariant i <= |results| ==> interim == Interims(results[resultIndex..i])
      decreases |results| - i
    {
      assert results[resultIndex..i + 1][..i - resultIndex] == results[resultIndex..i];
      if results[i].isFinal {
        final := final + results[i].transcript;
      } else {
        interim := interim + results[i].transcript;
      }
      i := i + 1;
    }
    if resultIndex <= |results| {
      assert results[resultIndex..i] == results[resultIndex..];
    }
  }

  /** Every transcript goes to exactly one of the two texts: together they are as long as
      all transcripts. */
  lemma {:induction false} PartitionLength(rs: seq<SpeechResult>)
    ensures |Finals(rs)| + |Interims(rs)| == |AllText(rs)|
  {
    if rs != [] {
      PartitionLength(rs[..|rs| - 1]);
    }
  }

  /** Final results come before the others. */
  predicate FinalsFirst(rs: seq<SpeechResult>) {
    forall i, j :: 0 <= i < j < |rs| && rs[j].isFinal ==> rs[i].isFinal
  }

  lemma {:induction false} AllFinal(rs: seq<SpeechResult>)
    requires forall i :: 0 <= i < |rs| ==> rs[i].isFinal
    ensures Finals(rs) == AllText(rs) && Interims(rs) == ""
  {
    if rs != [] {
      AllFinal(rs[..|rs| - 1]);
    }
  }

  /** When the final results come first, as the recognizer delivers them, the displayed
      transcript, final text then interim text, is all transcripts in their order. */
  lemma {:induction false} TranscriptInOrder(rs: seq<SpeechResult>)
    requires FinalsFirst(rs)
    ensures Finals(rs) + Interims(rs) == AllText(rs)
  {
    if rs != [] {
      var init := rs[..|rs| - 1];
      var x := rs[|rs| - 1];
      if x.isFinal {
        AllFinal(rs);
      } else {
        TranscriptInOrder(init);
        assert Finals(rs) + Interims(rs) == Finals(init) + (Interims(init) + x.transcript);
      }
    }
  }

  /** Without that order the displayed transcript puts the final text first: an interim "a"
      before a final "b" is displayed as "ba". */
  lemma {:induction false} TranscriptReordered()
    ensures var rs := [SpeechResult("a", false), SpeechResult("b", true)];
      Finals(rs) + Interims(rs) == "ba" && AllText(rs) == "ab"
  {
    var rs := [SpeechResult("a", false), SpeechResult("b", true)];
    assert rs[..1] == [SpeechResult("a", false)];
    assert rs[..1][..0] == [];
  }
}
