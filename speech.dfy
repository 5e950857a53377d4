/** The transcript the speech recognizer's `onresult` handler builds: the first (best) alternative
    of every result so far, joined in order with no separator. */
module Speech {

  datatype Option<T> = None | Some(value: T)

  /** One recognition hypothesis; only its transcript is read (its confidence is not). */
  datatype Alternative = Alternative(transcript: string)

  /** A recognition result: its alternatives, best first. */
  type RecognitionResult = seq<Alternative>

  /** `parts.join('')`. */
  function Join(parts: seq<string>): string
  {
    if parts == [] then "" else parts[0] + Join(parts[1..])
  }

  /** Joining distributes over concatenation of the lists of parts. */
  lemma {:induction false} JoinAppend(a: seq<string>, b: seq<string>)
    ensures Join(a + b) == Join(a) + Join(b)
  {
    if a != [] {
      assert (a + b)[1..] == a[1..] + b;
      JoinAppend(a[1..], b);
    } else {
      assert a + b == b;
    }
  }

  /** A single part joins to itself: no separator is added. */
  lemma {:induction false} JoinOne(part: string)
    ensures Join([part]) == part
  {
    assert [part][1..] == [];
  }

  /** Part `k` appears in the joined text right after the parts before it, unchanged. */
  lemma {:induction false} JoinPlacesPart(parts: seq<string>, k: nat)
    requires k < |parts|
    ensures var at := |Join(parts[..k])|;
            at + |parts[k]| <= |Join(parts)| && Join(parts)[at..at + |parts[k]|] == parts[k]
  {
    assert parts == parts[..k] + ([parts[k]] + parts[k + 1..]);
    JoinAppend(parts[..k], [parts[k]] + parts[k + 1..]);
    assert Join([parts[k]] + parts[k + 1..]) == parts[k] + Join(parts[k + 1..]);
  }

  predicate EveryResultHasAlternative(results: seq<RecognitionResult>)
  {
    forall j :: 0 <= j < |results| ==> results[j] != []
  }

  /** `results.map(result => result[0]).map(result => result.transcript)`. */
  function BestTranscripts(results: seq<RecognitionResult>): (r: seq<string>)
    requires EveryResultHasAlternative(results)
    ensures |r| == |results|
    ensures forall j :: 0 <= j < |results| ==> r[j] == results[j][0].transcript
  {
    if results == [] then [] else [results[0][0].transcript] + BestTranscripts(results[1..])
  }

  /** The text `onresult` stores as the input. A result without alternatives makes `result[0]`
      undefined and reading its transcript throws, so the handler stores nothing: `None`. */
  function Transcript(results: seq<RecognitionResult>): (r: Option<string>)
    ensures r.Some? <==> EveryResultHasAlternative(results)
  {
    if EveryResultHasAlternative(results) then Some(Join(BestTranscripts(results))) else None
  }

  /** Every result of a concatenation has an alternative exactly when every result of both parts has. */
  lemma {:induction false} EveryResultAppend(earlier: seq<RecognitionResult>, later: seq<RecognitionResult>)
    ensures EveryResultHasAlternative(earlier + later)
            <==> EveryResultHasAlternative(earlier) && EveryResultHasAlternative(later)
  {
    var all := earlier + later;
    assert forall j :: 0 <= j < |earlier| ==> earlier[j] == all[j];
    assert forall j :: 0 <= j < |later| ==> later[j] == all[|earlier| + j];
  }

  /** The best transcripts of a concatenation are those of the earlier results, then of the later ones. */
  lemma {:induction false} BestTranscriptsAppend(earlier: seq<RecognitionResult>, later: seq<RecognitionResult>)
    requires EveryResultHasAlternative(earlier) && EveryResultHasAlternative(later)
    requires EveryResultHasAlternative(earlier + later)
    ensures BestTranscripts(earlier + later) == BestTranscripts(earlier) + BestTranscripts(later)
  {
    var all, a, b := BestTranscripts(earlier + later), BestTranscripts(earlier), BestTranscripts(later);
    assert |all| == |a + b|;
    forall j | 0 <= j < |all|
      ensures all[j] == (a + b)[j]
    {
      if j < |earlier| {
        assert (earlier + later)[j] == earlier[j];
      } else {
        assert (earlier + later)[j] == later[j - |earlier|];
      }
    }
  }

  /** The transcript of more results extends the transcript of the earlier ones by the new ones' text. */
  lemma {:induction false} TranscriptAppend(earlier: seq<RecognitionResult>, later: seq<RecognitionResult>)
    ensures Transcript(earlier + later).Some? <==> Transcript(earlier).Some? && Transcript(later).Some?
    ensures Transcript(earlier + later).Some? ==>
              Transcript(earlier + later).value == Transcript(earlier).value + Transcript(later).value
  {
    EveryResultAppend(earlier, later);
    if EveryResultHasAlternative(earlier + later) {
      BestTranscriptsAppend(earlier, later);
      JoinAppend(BestTranscripts(earlier), BestTranscripts(later));
    }
  }

  /** The best transcript of result `j` appears in the stored text, right after those of the results before it. */
  lemma {:induction false} TranscriptPlacesResult(results: seq<RecognitionResult>, j: nat)
    requires Transcript(results).Some? && j < |results|
    ensures Transcript(results[..j]).Some?
    ensures var at, piece := |Transcript(results[..j]).value|, results[j][0].transcript;
            at + |piece| <= |Transcript(results).value| &&
            Transcript(results).value[at..at + |piece|] == piece
  {
    var parts := BestTranscripts(results);
    assert forall i :: 0 <= i < j ==> results[..j][i] == results[i];
    assert BestTranscripts(results[..j]) == parts[..j];
    JoinPlacesPart(parts, j);
  }
}
