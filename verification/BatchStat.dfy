/**
 Availability checks: PipelinedStat (internal/nntp/conns.go), BatchStat
 (internal/nntp/client.go) and their use in checkFileAvailability (pkg/usenet/usenet.go).
 */
module BatchStat {
  import opened Wrappers
  import opened Errors

  datatype StatResult = StatResult(id: string, available: bool, error: Option<Error>)

  /** What reading one response gives: a status code, or a broken connection. */
  datatype Response = Code(code: int) | Lost

  /** The result a status code stands for: 223 is section 6.2.4 of RFC 3977. */
  function Answer(id: string, code: int): StatResult {
    if code == 223 then StatResult(id, true, None) else StatResult(id, false, Some(Nntp(Classify(code))))
  }

  /** In terms of codes: 223 is there, 423 and 430 are not there, anything else is another error. */
  lemma AnswerMeaning(id: string, code: int)
    ensures var x := Answer(id, code);
      && x.id == id && (x.available <==> code == 223) && (x.error.None? <==> code == 223)
      && (x.error == Some(Nntp(TypeArticleNotFound)) <==> code == 423 || code == 430)
      && (x.error.Some? ==> x.error.value.Nntp?)
  {}

  const BROKEN: Error := Nntp(TypeConnection)

  /** The connection broke before response i was read. */
  ghost predicate LostBy(responses: seq<Response>, i: nat)
    requires i < |responses|
  {
    exists j :: 0 <= j <= i && responses[j].Lost?
  }

  /** What result i says: 223 is there, 423 and 430 are not, and nothing is known after the connection broke. */
  ghost predicate Says(id: string, responses: seq<Response>, i: nat, x: StatResult)
    requires i < |responses|
  {
    var code := if LostBy(responses, i) then 0 else responses[i].code;
    && x.id == id && (x.available <==> code == 223) && (x.available <==> x.error.None?)
    && (x.error == Some(Nntp(TypeArticleNotFound)) <==> code == 423 || code == 430)
    && (LostBy(responses, i) ==> x.error == Some(BROKEN))
  }

  lemma ResultsSay(ids: seq<string>, responses: seq<Response>, results: seq<StatResult>)
    requires |ids| == |responses| == |results|
    requires forall i :: 0 <= i < |ids| ==>
      results[i] == if LostBy(responses, i) then StatResult(ids[i], false, Some(BROKEN))
                    else Answer(ids[i], responses[i].code)
    ensures forall i :: 0 <= i < |ids| ==> Says(ids[i], responses, i, results[i])
  {
    hide Answer;
    forall i | 0 <= i < |ids| ensures Says(ids[i], responses, i, results[i]) {
      if !LostBy(responses, i) { AnswerMeaning(ids[i], responses[i].code); }
    }
  }

  /** The responses are read in the order of the commands (pipelining, section 3.5 of RFC 3977). */
  method PipelinedStat(ids: seq<string>, sendOk: bool, responses: seq<Response>)
    returns (results: seq<StatResult>, err: Option<Error>)
    requires |responses| == |ids|
    ensures ids != [] && !sendOk ==> results == [] && err == Some(BROKEN)
    ensures ids == [] || sendOk ==>
      && |results| == |ids|
      && (err.None? <==> Lost !in responses)
      && (err.Some? ==> err == Some(BROKEN))
      && forall i :: 0 <= i < |ids| ==>
        results[i] == if LostBy(responses, i) then StatResult(ids[i], false, Some(BROKEN))
                      else Answer(ids[i], responses[i].code)
    ensures ids == [] || sendOk ==> forall i :: 0 <= i < |ids| ==> Says(ids[i], responses, i, results[i])
  {
    if |ids| == 0 {
      return [], None;
    }
    if !sendOk {
      return [], Some(BROKEN);
    }
    var out := new StatResult[|ids|](_ => StatResult("", false, None));
    for i := 0 to |ids|
      invariant forall k :: 0 <= k < i ==> !responses[k].Lost?
      invariant forall k :: 0 <= k < i ==> out[k] == Answer(ids[k], responses[k].code)
    {
      if responses[i].Lost? {
        for j := i to |ids|
          invariant forall k :: 0 <= k < i ==> out[k] == Answer(ids[k], responses[k].code)
          invariant forall k :: i <= k < j ==> out[k] == StatResult(ids[k], false, Some(BROKEN))
        {
          out[j] := StatResult(ids[j], false, Some(BROKEN));
        }
        ResultsSay(ids, responses, out[..]);
        return out[..], Some(BROKEN);
      }
      var code := responses[i].code;
      if code == 223 {
        out[i] := StatResult(ids[i], true, None);
      } else {
        out[i] := StatResult(ids[i], false, Some(Nntp(Classify(code))));
      }
    }
    ResultsSay(ids, responses, out[..]);
    return out[..], None;
  }

  // ------------------------------------------------------------------ batch

  const PIPELINE_BATCH_SIZE: nat := 50

  function ChunkCount(total: nat): nat { (total + PIPELINE_BATCH_SIZE - 1) / PIPELINE_BATCH_SIZE }

  function ChunkStart(c: nat): nat { PIPELINE_BATCH_SIZE * c }

  function ChunkEnd(total: nat, c: nat): nat {
    if ChunkStart(c) + PIPELINE_BATCH_SIZE <= total then ChunkStart(c) + PIPELINE_BATCH_SIZE else total
  }

  /** The chunk a message belongs to. */
  function ChunkOf(i: nat): nat { i / PIPELINE_BATCH_SIZE }

  lemma ChunkOfIff(total: nat, c: nat, i: nat)
    requires i < total
    ensures ChunkOf(i) == c <==> ChunkStart(c) <= i < ChunkEnd(total, c)
    ensures ChunkOf(i) < ChunkCount(total)
  {}

  datatype Cut = Cut(startIdx: nat, ids: seq<string>)

  /** The loop that cuts the messages into chunks. */
  method CutChunks(ids: seq<string>) returns (cuts: seq<Cut>)
    ensures |cuts| == ChunkCount(|ids|)
    ensures forall c :: 0 <= c < |cuts| ==>
      ChunkStart(c) < ChunkEnd(|ids|, c) <= |ids| &&
      cuts[c] == Cut(ChunkStart(c), ids[ChunkStart(c)..ChunkEnd(|ids|, c)])
  {
    cuts := [];
    var i := 0;
    while i < |ids|
      invariant i == ChunkStart(|cuts|) && |cuts| <= ChunkCount(|ids|)
      invariant forall c :: 0 <= c < |cuts| ==>
        ChunkStart(c) < ChunkEnd(|ids|, c) <= |ids| &&
        cuts[c] == Cut(ChunkStart(c), ids[ChunkStart(c)..ChunkEnd(|ids|, c)])
    {
      var end := if i + PIPELINE_BATCH_SIZE < |ids| then i + PIPELINE_BATCH_SIZE else |ids|;
      cuts := cuts + [Cut(i, ids[i..end])];
      i := i + PIPELINE_BATCH_SIZE;
    }
  }

  /** A chunk's call ends with an error, or after a PipelinedStat that read all these responses. */
  datatype Outcome = Errored(error: Error) | Served(codes: seq<int>)

  /** Every chunk has an outcome, and a chunk that was served has a response for each of its messages. */
  ghost predicate Matches(total: nat, outcomes: seq<Outcome>) {
    && |outcomes| == ChunkCount(total)
    && forall c :: 0 <= c < |outcomes| && outcomes[c].Served? ==>
         |outcomes[c].codes| == ChunkEnd(total, c) - ChunkStart(c)
  }

  ghost predicate Permutation(arrival: seq<nat>, n: nat) {
    && |arrival| == n
    && (forall k :: 0 <= k < n ==> arrival[k] < n)
    && (forall k, l :: 0 <= k < l < n ==> arrival[k] != arrival[l])
    && (forall c :: 0 <= c < n ==> c in arrival)
  }

  /** The result that belongs to message i, whatever order the chunks finish in. */
  ghost function Expected(ids: seq<string>, outcomes: seq<Outcome>, i: nat): StatResult
    requires Matches(|ids|, outcomes) && i < |ids|
  {
    var c := ChunkOf(i);
    match outcomes[c]
    case Errored(e) => StatResult(ids[i], false, Some(e))
    case Served(codes) => Answer(ids[i], codes[i - ChunkStart(c)])
  }

  function Count(results: seq<StatResult>, p: StatResult -> bool): nat {
    if results == [] then 0
    else Count(results[..|results| - 1], p) + if p(results[|results| - 1]) then 1 else 0
  }

  predicate Found(r: StatResult) { r.available }

  predicate Missing(r: StatResult) { !r.available && r.error.Some? && NotFound(r.error.value) }

  predicate Failed(r: StatResult) { !r.available && r.error.Some? && !NotFound(r.error.value) }

  datatype BatchResult = BatchResult(results: seq<StatResult>, total: nat, found: nat, errors: nat) {
    predicate AllAvailable() { found == total }
  }

  /** What one chunk sends back: a connection-level error, or the results of its last PipelinedStat. */
  method RunChunk(cut: Cut, outcome: Outcome) returns (results: seq<StatResult>, connErr: Option<Error>)
    requires outcome.Served? ==> |outcome.codes| == |cut.ids|
    ensures outcome.Errored? ==> connErr == Some(outcome.error)
    ensures outcome.Served? ==>
      && connErr == None && |results| == |cut.ids|
      && forall i :: 0 <= i < |results| ==> results[i] == Answer(cut.ids[i], outcome.codes[i])
  {
    match outcome
    case Errored(e) => return [], Some(e);
    case Served(codes) =>
      var responses := seq(|codes|, i requires 0 <= i < |codes| => Code(codes[i]));
      results, connErr := PipelinedStat(cut.ids, true, responses);
  }

  /** One chunk's results copied into place, or its error on every message of the chunk. */
  method Store(all: array<StatResult>, startIdx: nat, results: seq<StatResult>, connErr: Option<Error>)
    requires startIdx <= all.Length
    modifies all
    ensures forall i :: 0 <= i < all.Length ==>
      all[i] ==
        if connErr.Some? && startIdx <= i < startIdx + PIPELINE_BATCH_SIZE
          then StatResult(old(all[i].id), false, connErr)
        else if connErr.None? && startIdx <= i < startIdx + |results| then results[i - startIdx]
        else old(all[i])
  {
    if connErr.Some? {
      var end := if startIdx + PIPELINE_BATCH_SIZE > all.Length then all.Length else startIdx + PIPELINE_BATCH_SIZE;
      for i := startIdx to end
        invariant forall k :: 0 <= k < all.Length ==>
          all[k] == if startIdx <= k < i then StatResult(old(all[k].id), false, connErr) else old(all[k])
      {
        all[i] := all[i].(available := false, error := connErr);
      }
    } else {
      for i := 0 to |results|
        invariant forall k :: 0 <= k < all.Length ==>
          all[k] == if startIdx <= k < startIdx + i then results[k - startIdx] else old(all[k])
      {
        if startIdx + i < all.Length {
          all[startIdx + i] := results[i];
        }
      }
    }
  }

  /** The messages of the chunks in `arrived` have their results; every message has its own id. */
  ghost predicate Filled(all: seq<StatResult>, ids: seq<string>, outcomes: seq<Outcome>, arrived: seq<nat>) {
    && Matches(|ids|, outcomes) && |all| == |ids|
    && (forall i :: 0 <= i < |ids| ==> all[i].id == ids[i])
    && (forall i :: 0 <= i < |ids| && ChunkOf(i) in arrived ==> all[i] == Expected(ids, outcomes, i))
  }

  /** A chunk is run and its results are stored. */
  method Receive(all: array<StatResult>, ids: seq<string>, outcomes: seq<Outcome>, cut: Cut, c: nat, ghost arrived: seq<nat>)
    requires Filled(all[..], ids, outcomes, arrived) && c < |outcomes|
    requires cut == Cut(ChunkStart(c), ids[ChunkStart(c)..ChunkEnd(|ids|, c)])
    modifies all
    ensures Filled(all[..], ids, outcomes, arrived + [c])
  {
    hide Answer;
    ghost var before := all[..];
    var results, connErr := RunChunk(cut, outcomes[c]);
    Store(all, cut.startIdx, results, connErr);
    forall i | 0 <= i < |ids|
      ensures all[i].id == ids[i]
      ensures ChunkOf(i) in arrived + [c] ==> all[i] == Expected(ids, outcomes, i)
    {
      ChunkOfIff(|ids|, c, i);
      ResultsAreComplete(ids, outcomes, i);
      assert all[i] == if ChunkOf(i) == c then Expected(ids, outcomes, i) else before[i];
    }
  }

  /** The two counters of the final loop; not-found articles are in neither. */
  method CountResults(results: seq<StatResult>) returns (found: nat, errors: nat)
    ensures found == Count(results, Found) && errors == Count(results, Failed)
  {
    found, errors := 0, 0;
    for i := 0 to |results|
      invariant found == Count(results[..i], Found)
      invariant errors == Count(results[..i], Failed)
    {
      assert results[..i + 1][..i] == results[..i];
      if results[i].available {
        found := found + 1;
      } else if results[i].error.Some? {
        if !NotFound(results[i].error.value) {
          errors := errors + 1;
        }
      }
    }
    assert results[..|results|] == results;
  }

  method BatchStat(closed: bool, ids: seq<string>, outcomes: seq<Outcome>, arrival: seq<nat>)
    returns (r: Option<BatchResult>)
    requires Matches(|ids|, outcomes) && Permutation(arrival, |outcomes|)
    ensures r.None? <==> closed
    ensures r.Some? ==> |r.value.results| == r.value.total == |ids|
    ensures r.Some? ==> forall i :: 0 <= i < |ids| ==> r.value.results[i] == Expected(ids, outcomes, i)
    ensures r.Some? ==> r.value.found == Count(r.value.results, Found)
    ensures r.Some? ==> r.value.errors == Count(r.value.results, Failed)
    ensures r.Some? ==> r.value.found + Count(r.value.results, Missing) + r.value.errors == r.value.total
  {
    if closed {
      return None;
    }
    if |ids| == 0 {
      return Some(BatchResult([], 0, 0, 0));
    }
    hide Expected, Answer, Count;
    var cuts := CutChunks(ids);
    var all := new StatResult[|ids|](i requires 0 <= i < |ids| => StatResult(ids[i], false, None));
    for k := 0 to |arrival|
      invariant Filled(all[..], ids, outcomes, arrival[..k])
    {
      Receive(all, ids, outcomes, cuts[arrival[k]], arrival[k], arrival[..k]);
      assert arrival[..k + 1] == arrival[..k] + [arrival[k]];
    }
    var results := all[..];
    assert arrival[..|arrival|] == arrival;
    AllFilled(results, ids, outcomes, arrival);
    CountsAddUp(results);
    var found, errors := CountResults(results);
    return Some(BatchResult(results, |ids|, found, errors));
  }

  /** When every chunk has arrived, every message has its result, which is complete. */
  lemma AllFilled(all: seq<StatResult>, ids: seq<string>, outcomes: seq<Outcome>, arrival: seq<nat>)
    requires Filled(all, ids, outcomes, arrival) && Permutation(arrival, |outcomes|)
    ensures forall i :: 0 <= i < |ids| ==> all[i] == Expected(ids, outcomes, i)
    ensures forall x :: x in all ==> x.available || x.error.Some?
  {
    forall i | 0 <= i < |ids|
      ensures all[i] == Expected(ids, outcomes, i) && (all[i].available || all[i].error.Some?)
    {
      ChunkOfIff(|ids|, 0, i);
      ResultsAreComplete(ids, outcomes, i);
    }
  }

  /** Results come with their own id and with an answer, and the three counts add up. */
  lemma ResultsAreComplete(ids: seq<string>, outcomes: seq<Outcome>, i: nat)
    requires Matches(|ids|, outcomes) && i < |ids|
    ensures var x := Expected(ids, outcomes, i);
      x.id == ids[i] && (x.available <==> x.error.None?)
  {
  }

  lemma {:induction false} CountsAddUp(results: seq<StatResult>)
    requires forall x :: x in results ==> x.available || x.error.Some?
    ensures Count(results, Found) + Count(results, Missing) + Count(results, Failed) == |results|
  {
    if results != [] {
      CountsAddUp(results[..|results| - 1]);
    }
  }

  lemma {:induction false} CountPositive(results: seq<StatResult>, p: StatResult -> bool)
    ensures Count(results, p) > 0 <==> exists x :: x in results && p(x)
  {
    if results != [] {
      var n := |results| - 1;
      CountPositive(results[..n], p);
      assert results == results[..n] + [results[n]];
    }
  }

  /** The server said of message i that there is no such article, or its chunk failed with just that. */
  ghost predicate NotThere(outcomes: seq<Outcome>, i: nat) {
    ChunkOf(i) < |outcomes| &&
    match outcomes[ChunkOf(i)]
    case Served(codes) => i % PIPELINE_BATCH_SIZE < |codes| && codes[i % PIPELINE_BATCH_SIZE] in {423, 430}
    case Errored(e) => e == Nntp(TypeArticleNotFound)
  }

  lemma InChunk(total: nat, outcomes: seq<Outcome>, i: nat)
    requires Matches(total, outcomes) && i < total
    ensures ChunkOf(i) < |outcomes| && i - ChunkStart(ChunkOf(i)) == i % PIPELINE_BATCH_SIZE
    ensures outcomes[ChunkOf(i)].Served? ==> i % PIPELINE_BATCH_SIZE < |outcomes[ChunkOf(i)].codes|
  {}

  lemma MissingIff(ids: seq<string>, outcomes: seq<Outcome>, i: nat)
    requires Matches(|ids|, outcomes) && i < |ids|
    ensures Missing(Expected(ids, outcomes, i)) <==> NotThere(outcomes, i)
  {
    InChunk(|ids|, outcomes, i);
    if outcomes[ChunkOf(i)].Served? { AnswerMeaning(ids[i], outcomes[ChunkOf(i)].codes[i % PIPELINE_BATCH_SIZE]); }
  }

  /**
   The decision of checkFileAvailability on the sampled ids: the file is reported missing
   exactly when the batch call itself succeeded and some id was definitely not found.
   */
  method CheckFileAvailability(closed: bool, ids: seq<string>, outcomes: seq<Outcome>, arrival: seq<nat>)
    returns (missing: bool)
    requires Matches(|ids|, outcomes) && Permutation(arrival, |outcomes|)
    ensures missing <==> !closed && exists i :: 0 <= i < |ids| && NotThere(outcomes, i)
  {
    forall i | 0 <= i < |ids| ensures Missing(Expected(ids, outcomes, i)) <==> NotThere(outcomes, i) {
      MissingIff(ids, outcomes, i);
    }
    hide NotThere, ChunkOf;
    hide Expected, Answer, Count;
    var batch := BatchStat(closed, ids, outcomes, arrival);
    if batch.None? {
      return false;
    }
    var result := batch.value;
    CountPositive(result.results, Missing);
    assert (exists x :: x in result.results && Missing(x)) <==>
      exists i :: 0 <= i < |ids| && NotThere(outcomes, i);
    if !result.AllAvailable() {
      var notFound := result.total - result.found - result.errors;
      if result.errors > 0 && notFound == 0 {
        return false;
      }
      return true;
    }
    return false;
  }
}
