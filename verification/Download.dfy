/**
 Download, pkg/usenet/download.go: segments are fetched in any order and one goroutine
 writes them in index order through a map of pending segments.
 */
module Download {
  import opened Bytes
  import opened Wrappers

  datatype Error = NoSegments | FetchError | OffsetExceedsData | WriteError | TaskError

  /** A segment of the file: offset into the decoded article and expected size. */
  datatype Segment = Segment(dataStart: int, bytes: nat)

  /** What a fetch task met: the decoded body, an error, or a reason to return before sending anything. */
  datatype Fetched = Body(data: seq<byte>) | Failed | Skipped

  /** What a task sends to the writer, or the error it returns without sending. */
  datatype Sent = Data(data: seq<byte>) | Bad(error: Error) | Nothing

  /** The slicing of a fetched body to the part of the file it holds. */
  function Trim(seg: Segment, data: seq<byte>): Option<seq<byte>> {
    if seg.dataStart > 0 && seg.dataStart >= |data| then None
    else
      var rest := if seg.dataStart > 0 then data[seg.dataStart..] else data;
      Some(if |rest| > seg.bytes then rest[..seg.bytes] else rest)
  }

  function Send(seg: Segment, f: Fetched): Sent {
    match f
    case Body(data) =>
      (match Trim(seg, data)
       case None => Bad(OffsetExceedsData)
       case Some(part) => Data(part))
    case Failed => Bad(FetchError)
    case Skipped => Nothing
  }

  /** What every task of a download sends. */
  function Sends(segments: seq<Segment>, fetched: seq<Fetched>): seq<Sent>
    requires |fetched| == |segments|
  {
    seq(|segments|, i requires 0 <= i < |segments| => Send(segments[i], fetched[i]))
  }

  lemma TrimIsASlice(seg: Segment, data: seq<byte>)
    ensures Trim(seg, data).None? <==> seg.dataStart > 0 && seg.dataStart >= |data|
    ensures Trim(seg, data).Some? ==>
      var from := if seg.dataStart > 0 then seg.dataStart else 0;
      var size := if |data| - from < seg.bytes then |data| - from else seg.bytes;
      Trim(seg, data).value == data[from..from + size]
  {
  }

  /** The first n segments, all present, end to end. */
  function Joined(sent: seq<Sent>, n: nat): seq<byte>
    requires n <= |sent| && Complete(sent, n)
  {
    if n == 0 then [] else Joined(sent, n - 1) + sent[n - 1].data
  }

  ghost predicate Complete(sent: seq<Sent>, n: nat)
    requires n <= |sent|
  {
    forall i :: 0 <= i < n ==> sent[i].Data?
  }

  /** The index of the first segment that never reaches the writer. */
  function FirstMissing(sent: seq<Sent>): (n: nat)
    ensures n <= |sent| && Complete(sent, n) && (n < |sent| ==> !sent[n].Data?)
  {
    if sent == [] || !sent[0].Data? then 0
    else
      var n := FirstMissing(sent[1..]);
      assert forall i :: 0 < i < n + 1 ==> sent[i] == sent[1..][i - 1];
      n + 1
  }

  lemma {:induction false} JoinedGrows(sent: seq<Sent>, m: nat, n: nat)
    requires m <= n <= |sent| && Complete(sent, n)
    ensures Joined(sent, m) <= Joined(sent, n)
  {
    if m < n { JoinedGrows(sent, m, n - 1); }
  }

  /** Results reach the writer in any order, each index that sends exactly once. */
  ghost predicate Arrives(sent: seq<Sent>, arrival: seq<nat>) {
    && (forall k :: 0 <= k < |arrival| ==> arrival[k] < |sent| && !sent[arrival[k]].Nothing?)
    && (forall k, l :: 0 <= k < l < |arrival| ==> arrival[k] != arrival[l])
    && (forall i :: 0 <= i < |sent| && !sent[i].Nothing? ==> i in arrival)
  }

  /**
   The state of the writer after it has taken the results in `arrived`: `broken` says that
   a write has failed, after which `tail` bytes of the segment at `next` may be out.
   */
  ghost predicate WriterInv(sent: seq<Sent>, arrived: set<nat>, pending: map<nat, seq<byte>>, next: nat,
                            broken: bool, tail: nat, written: seq<byte>)
  {
    && next <= |sent| && Complete(sent, next)
    && (forall i :: 0 <= i < next ==> i in arrived)
    && (forall i :: i in pending ==> next <= i < |sent| && i in arrived && sent[i] == Data(pending[i]))
    && (forall i :: i in arrived && next <= i < |sent| && sent[i].Data? ==> i in pending || (broken && i == next))
    && (broken ==> next < |sent| && next in arrived && next !in pending && sent[next].Data? && tail <= |sent[next].data|)
    && written == Joined(sent, next) + if broken then sent[next].data[..tail] else []
  }

  /** io.Writer: everything on success, some prefix on failure. */
  method Write(data: seq<byte>) returns (n: nat, ok: bool)
    ensures n <= |data| && (ok ==> n == |data|)
  {
    ok := *;
    if ok {
      n := |data|;
    } else {
      n :| n <= |data|;
    }
  }

  /** One write from an unbroken state, whether it fails after n bytes or succeeds. */
  lemma WriteKeepsInv(sent: seq<Sent>, arrived: set<nat>, pending: map<nat, seq<byte>>, next: nat,
                      tail: nat, written: seq<byte>, n: nat)
    requires WriterInv(sent, arrived, pending, next, false, tail, written)
    requires next in pending && n <= |pending[next]|
    ensures WriterInv(sent, arrived, pending - {next}, next, true, n, written + pending[next][..n])
    ensures WriterInv(sent, arrived, pending - {next}, next + 1, false, tail, written + pending[next])
    ensures next < |sent|
  {
    hide FirstMissing, Arrives;
  }

  lemma BrokenIsStuck(sent: seq<Sent>, arrived: set<nat>, pending: map<nat, seq<byte>>, next: nat,
                      tail: nat, written: seq<byte>)
    requires WriterInv(sent, arrived, pending, next, true, tail, written)
    ensures next !in pending
  {}

  /** The inner loop of the writer: everything consecutive from nextToWrite. */
  method Flush(sent: seq<Sent>, ghost arrived: set<nat>, pending: map<nat, seq<byte>>, next: nat,
               ghost broken: bool, ghost tail: nat, written: seq<byte>)
    returns (pending': map<nat, seq<byte>>, next': nat, ghost tail': nat, written': seq<byte>, failed: bool)
    requires WriterInv(sent, arrived, pending, next, broken, tail, written)
    ensures WriterInv(sent, arrived, pending', next', broken || failed, tail', written')
    ensures next' !in pending'
    ensures broken ==> written' == written && !failed
  {
    pending', next', tail', written', failed := pending, next, tail, written, false;
    if broken { BrokenIsStuck(sent, arrived, pending, next, tail, written); }
    hide WriterInv, FirstMissing, Arrives;
    while next' in pending'
      invariant WriterInv(sent, arrived, pending', next', broken, tail', written') && !failed
      invariant broken ==> written' == written && next' !in pending'
      decreases |sent| - next'
    {
      var data := pending'[next'];
      ghost var before := pending';
      pending' := pending' - {next'};
      var n, ok := Write(data);
      WriteKeepsInv(sent, arrived, before, next', tail', written', n);
      written' := written' + data[..n];
      if !ok {
        tail' := n;
        return pending', next', tail', written', true;
      }
      assert data[..n] == data;
      next' := next' + 1;
    }
  }

  /** A result arrives for the first time. */
  lemma ArrivalKeepsInv(sent: seq<Sent>, arrived: set<nat>, pending: map<nat, seq<byte>>, next: nat,
                        broken: bool, tail: nat, written: seq<byte>, index: nat)
    requires WriterInv(sent, arrived, pending, next, broken, tail, written)
    requires index < |sent| && index !in arrived
    ensures sent[index].Data? ==>
      WriterInv(sent, arrived + {index}, pending[index := sent[index].data], next, broken, tail, written)
    ensures !sent[index].Data? ==> WriterInv(sent, arrived + {index}, pending, next, broken, tail, written)
  {
    hide Joined;
  }

  /** The data of a segment arrives: it is kept, and everything that is now consecutive is written. */
  method Accept(sent: seq<Sent>, ghost arrived: set<nat>, pending: map<nat, seq<byte>>, next: nat,
                ghost broken: bool, ghost tail: nat, written: seq<byte>, index: nat)
    returns (pending': map<nat, seq<byte>>, next': nat, ghost tail': nat, written': seq<byte>, failed: bool)
    requires WriterInv(sent, arrived, pending, next, broken, tail, written)
    requires index < |sent| && index !in arrived && sent[index].Data?
    ensures WriterInv(sent, arrived + {index}, pending', next', broken || failed, tail', written')
    ensures next' !in pending'
    ensures broken ==> written' == written && !failed
  {
    ArrivalKeepsInv(sent, arrived, pending, next, broken, tail, written, index);
    hide WriterInv;
    pending' := pending[index := sent[index].data];
    pending', next', tail', written', failed := Flush(sent, arrived + {index}, pending', next, broken, tail, written);
  }

  // ------------------------------------------- the file, in terms of what was fetched

  /** The segment's offset lies in the body, or it has none. */
  ghost predicate Fits(seg: Segment, data: seq<byte>) { seg.dataStart <= 0 || seg.dataStart < |data| }

  /** The part of the body that belongs to the file. */
  ghost function SliceOf(seg: Segment, data: seq<byte>): seq<byte>
    requires Fits(seg, data)
  {
    var from := if seg.dataStart > 0 then seg.dataStart else 0;
    data[from..if |data| - from < seg.bytes then |data| else from + seg.bytes]
  }

  /** Segment i was fetched, and its offset fits. */
  ghost predicate Good(segments: seq<Segment>, fetched: seq<Fetched>, i: nat)
    requires i < |segments| == |fetched|
  {
    fetched[i].Body? && Fits(segments[i], fetched[i].data)
  }

  ghost predicate AllGood(segments: seq<Segment>, fetched: seq<Fetched>, n: nat)
    requires n <= |segments| == |fetched|
  {
    forall i :: 0 <= i < n ==> Good(segments, fetched, i)
  }

  /** The first n slices end to end. */
  ghost function FileUpTo(segments: seq<Segment>, fetched: seq<Fetched>, n: nat): seq<byte>
    requires n <= |segments| == |fetched| && AllGood(segments, fetched, n)
  {
    if n == 0 then []
    else
      assert Good(segments, fetched, n - 1);
      FileUpTo(segments, fetched, n - 1) + SliceOf(segments[n - 1], fetched[n - 1].data)
  }

  /** What a task sends for what it met. */
  lemma SendMeaning(seg: Segment, f: Fetched)
    ensures Send(seg, f).Data? <==> f.Body? && Fits(seg, f.data)
    ensures Send(seg, f).Data? ==> Send(seg, f).data == SliceOf(seg, f.data)
    ensures Send(seg, f) == Bad(FetchError) <==> f.Failed?
    ensures Send(seg, f) == Bad(OffsetExceedsData) <==> f.Body? && !Fits(seg, f.data)
    ensures Send(seg, f).Bad? ==> Send(seg, f).error in {FetchError, OffsetExceedsData}
    ensures Send(seg, f).Nothing? <==> f.Skipped?
  {
    if f.Body? { TrimIsASlice(seg, f.data); }
  }

  /** Tasks send data for the good segments and only for those. */
  lemma CompleteIffGood(segments: seq<Segment>, fetched: seq<Fetched>, n: nat)
    requires n <= |segments| == |fetched|
    ensures Complete(Sends(segments, fetched), n) <==> AllGood(segments, fetched, n)
    ensures forall i :: 0 <= i < |segments| ==> (Sends(segments, fetched)[i].Data? <==> Good(segments, fetched, i))
  {
    forall i | 0 <= i < |segments| ensures Sends(segments, fetched)[i].Data? <==> Good(segments, fetched, i) {
      SendMeaning(segments[i], fetched[i]);
    }
    hide Good, Sends;
  }

  lemma {:induction false} JoinedSlices(sent: seq<Sent>, segments: seq<Segment>, fetched: seq<Fetched>, n: nat)
    requires n <= |sent| == |segments| == |fetched|
    requires forall i :: 0 <= i < n ==>
      Good(segments, fetched, i) && sent[i] == Data(SliceOf(segments[i], fetched[i].data))
    ensures Joined(sent, n) == FileUpTo(segments, fetched, n)
  {
    hide SliceOf, Fits;
    if n > 0 { JoinedSlices(sent, segments, fetched, n - 1); }
  }

  lemma JoinedIsFile(segments: seq<Segment>, fetched: seq<Fetched>, n: nat)
    requires n <= |segments| == |fetched| && Complete(Sends(segments, fetched), n) && AllGood(segments, fetched, n)
    ensures Joined(Sends(segments, fetched), n) == FileUpTo(segments, fetched, n)
  {
    forall i | 0 <= i < n
      ensures Good(segments, fetched, i)
      ensures Sends(segments, fetched)[i] == Data(SliceOf(segments[i], fetched[i].data))
    {
      SendMeaning(segments[i], fetched[i]);
    }
    hide Sends, SliceOf, Joined, FileUpTo;
    JoinedSlices(Sends(segments, fetched), segments, fetched, n);
  }

  /** The first segment that never arrives is the first that is not good. */
  lemma FirstMissingIs(segments: seq<Segment>, fetched: seq<Fetched>, n: nat)
    requires n <= |segments| == |fetched| && AllGood(segments, fetched, n)
    requires n == |segments| || !Good(segments, fetched, n)
    ensures FirstMissing(Sends(segments, fetched)) == n
  {
    hide Good;
    var m := FirstMissing(Sends(segments, fetched));
    CompleteIffGood(segments, fetched, m);
    assert m <= n;
  }

  /** The results before the j-th were parts of the file, and were written. */
  ghost predicate GoesWell(segments: seq<Segment>, fetched: seq<Fetched>, arrival: seq<nat>, failedAt: Option<nat>, j: nat)
    requires j <= |arrival| && |segments| == |fetched| && forall i :: 0 <= i < |arrival| ==> arrival[i] < |segments|
  {
    forall i :: 0 <= i < j ==> Good(segments, fetched, arrival[i]) && failedAt != Some(i)
  }

  /** The first result to arrive that is not a part of the file, or whose write fails, is the error. */
  ghost predicate FirstToArrive(segments: seq<Segment>, fetched: seq<Fetched>, arrival: seq<nat>, failedAt: Option<nat>,
                                err: Option<Error>)
    requires |segments| == |fetched| && forall i :: 0 <= i < |arrival| ==> arrival[i] < |segments|
  {
    forall j :: 0 <= j < |arrival| && GoesWell(segments, fetched, arrival, failedAt, j) ==>
      && (!Good(segments, fetched, arrival[j]) ==>
            err == Some(if fetched[arrival[j]].Failed? then FetchError else OffsetExceedsData))
      && (Good(segments, fetched, arrival[j]) && failedAt == Some(j) ==> err == Some(WriteError))
  }

  /** The first k results. */
  ghost function Taken(arrival: seq<nat>, k: nat): set<nat>
    requires k <= |arrival|
  {
    set j | 0 <= j < k :: arrival[j]
  }

  lemma TakeOne(sent: seq<Sent>, arrival: seq<nat>, k: nat)
    requires Arrives(sent, arrival) && k < |arrival|
    ensures arrival[k] < |sent| && !sent[arrival[k]].Nothing? && arrival[k] !in Taken(arrival, k)
    ensures Taken(arrival, k + 1) == Taken(arrival, k) + {arrival[k]}
  {}

  lemma TakenAll(sent: seq<Sent>, arrival: seq<nat>)
    requires Arrives(sent, arrival)
    ensures forall i :: 0 <= i < |sent| && !sent[i].Nothing? ==> i in Taken(arrival, |arrival|)
  {}

  /**
   The writer goroutine: it takes the results as they arrive until the channel is closed.
   `writesFailed` is true when the io.Writer refused some write, which was that of result
   `failedAt`.
   */
  method WriteResults(sent: seq<Sent>, arrival: seq<nat>)
    returns (writeErr: Option<Error>, written: seq<byte>, writesFailed: bool, ghost failedAt: Option<nat>)
    requires Arrives(sent, arrival)
    ensures written <= Joined(sent, FirstMissing(sent))
    ensures !writesFailed ==> written == Joined(sent, FirstMissing(sent))
    ensures (writesFailed <==> failedAt.Some?) && (failedAt.Some? ==> failedAt.value < |arrival|)
    ensures writeErr == FirstFailure(sent, arrival, failedAt, |arrival|)
  {
    writeErr, written, writesFailed, failedAt := None, [], false, None;
    var pending: map<nat, seq<byte>> := map[];
    var next: nat := 0;
    ghost var arrived: set<nat>, tail: nat := {}, 0;
    assert arrived == Taken(arrival, 0);
    assert WriterInv(sent, arrived, pending, next, false, tail, written);
    assert Recorded(sent, arrival, 0, failedAt, writeErr);
    hide WriterInv, Joined, FirstMissing, Complete, Taken, Arrives, Recorded;
    for k := 0 to |arrival|
      invariant arrived == Taken(arrival, k)
      invariant WriterInv(sent, arrived, pending, next, writesFailed, tail, written)
      invariant next !in pending && (writesFailed <==> failedAt.Some?)
      invariant Recorded(sent, arrival, k, failedAt, writeErr)
    {
      var index := arrival[k];
      TakeOne(sent, arrival, k);
      ghost var failedBefore, errorBefore := failedAt, writeErr;
      var failed := false;
      if sent[index].Bad? {
        ArrivalKeepsInv(sent, arrived, pending, next, writesFailed, tail, written, index);
        if writeErr.None? { writeErr := Some(sent[index].error); }
      } else {
        pending, next, tail, written, failed := Accept(sent, arrived, pending, next, writesFailed, tail, written, index);
        if failed && writeErr.None? { writeErr := Some(WriteError); }
      }
      arrived := arrived + {index};
      if failed { writesFailed, failedAt := true, Some(k); }
      OneMoreResult(sent, arrival, k, failedBefore, errorBefore, failed, failedAt, writeErr);
    }
    RecordedAtEnd(sent, arrival, failedAt, writeErr);
    TakenAll(sent, arrival);
    OutputIsAPrefix(sent, arrived, pending, next, writesFailed, tail, written);
  }

  /** The whole download: the tasks' results reach the writer in the given order. */
  method Download(segments: seq<Segment>, fetched: seq<Fetched>, arrival: seq<nat>)
    returns (err: Option<Error>, written: seq<byte>, writesFailed: bool, ghost failedAt: Option<nat>)
    requires |fetched| == |segments|
    requires Arrives(Sends(segments, fetched), arrival)
    ensures written <= Joined(Sends(segments, fetched), FirstMissing(Sends(segments, fetched)))
    ensures !writesFailed ==> written == Joined(Sends(segments, fetched), FirstMissing(Sends(segments, fetched)))
    ensures err.None? <==>
      segments != [] && FirstMissing(Sends(segments, fetched)) == |segments| && !writesFailed
    // in terms of what was fetched
    ensures forall n :: 0 <= n <= |segments| && AllGood(segments, fetched, n)
                        && (n == |segments| || !Good(segments, fetched, n)) ==>
      && written <= FileUpTo(segments, fetched, n)
      && (!writesFailed ==> written == FileUpTo(segments, fetched, n))
    ensures err.None? <==> segments != [] && AllGood(segments, fetched, |segments|) && !writesFailed
    ensures err.None? ==> written == FileUpTo(segments, fetched, |segments|)
    ensures err == Some(NoSegments) <==> segments == []
    ensures segments == [] ==> !writesFailed
    ensures err == Some(WriteError) ==> writesFailed
    ensures err == Some(FetchError) ==> Failed in fetched
    ensures err == Some(OffsetExceedsData) ==>
      exists i :: 0 <= i < |segments| && fetched[i].Body? && !Fits(segments[i], fetched[i].data)
    ensures err == Some(TaskError) ==> Skipped in fetched
    // the first failure to reach the writer is the result, and a task's own error only when there is none
    ensures writesFailed <==> failedAt.Some?
    ensures FirstToArrive(segments, fetched, arrival, failedAt, err)
    ensures err == Some(TaskError) <==>
      && Skipped in fetched && !writesFailed
      && forall i :: 0 <= i < |fetched| ==> fetched[i].Skipped? || Good(segments, fetched, i)
  {
    var sent := Sends(segments, fetched);
    if segments == [] {
      assert FileUpTo(segments, fetched, 0) == [];
      return Some(NoSegments), [], false, None;
    }
    hide Joined, FirstMissing, Sends, FirstFailure, Good, Fits, FirstToArrive, FileUpTo, AllGood, SentIs, Arrives;
    err, written, writesFailed, failedAt := WriteResults(sent, arrival);
    NoErrorIff(sent, arrival, failedAt);
    ErrorMeaning(segments, fetched, arrival, failedAt, err);
    if err.None? && Nothing in sent {
      err := Some(TaskError); // p.Wait
    }
    OutputIsFile(segments, fetched, written, writesFailed);
    SendsAre(segments, fetched);
    OnlySkipped(sent, segments, fetched, arrival, failedAt);
    FirstErrorMeaning(sent, segments, fetched, arrival, failedAt, err);
  }

  ghost predicate InRange(sent: seq<Sent>, arrival: seq<nat>) {
    forall i :: 0 <= i < |arrival| ==> arrival[i] < |sent|
  }

  /** What the writer has recorded after k results: the first error sent, or its own failed write. */
  ghost function FirstFailure(sent: seq<Sent>, arrival: seq<nat>, failedAt: Option<nat>, k: nat): Option<Error>
    requires k <= |arrival| && InRange(sent, arrival)
  {
    if k == 0 then None
    else if FirstFailure(sent, arrival, failedAt, k - 1).Some? then FirstFailure(sent, arrival, failedAt, k - 1)
    else if sent[arrival[k - 1]].Bad? then Some(sent[arrival[k - 1]].error)
    else if failedAt == Some(k - 1) then Some(WriteError)
    else None
  }

  /** A write that fails later leaves what has been recorded. */
  lemma {:induction false} FailsLater(sent: seq<Sent>, arrival: seq<nat>, failedAt: Option<nat>, k: nat)
    requires k <= |arrival| && InRange(sent, arrival)
    requires failedAt.Some? ==> failedAt.value >= k
    ensures FirstFailure(sent, arrival, failedAt, k) == FirstFailure(sent, arrival, None, k)
  {
    if k > 0 { FailsLater(sent, arrival, failedAt, k - 1); }
  }

  ghost predicate Recorded(sent: seq<Sent>, arrival: seq<nat>, k: nat, failedAt: Option<nat>, writeErr: Option<Error>) {
    && k <= |arrival| && InRange(sent, arrival)
    && (failedAt.Some? ==> failedAt.value < k)
    && writeErr == FirstFailure(sent, arrival, failedAt, k)
  }

  lemma OneMoreResult(sent: seq<Sent>, arrival: seq<nat>, k: nat, failedAt: Option<nat>, writeErr: Option<Error>,
                      failed: bool, failedAt': Option<nat>, writeErr': Option<Error>)
    requires Recorded(sent, arrival, k, failedAt, writeErr) && k < |arrival| && arrival[k] < |sent|
    requires failed ==> failedAt.None? && sent[arrival[k]].Data?
    requires failedAt' == if failed then Some(k) else failedAt
    requires writeErr' ==
      if writeErr.Some? then writeErr
      else if sent[arrival[k]].Bad? then Some(sent[arrival[k]].error)
      else if failed then Some(WriteError)
      else None
    ensures Recorded(sent, arrival, k + 1, failedAt', writeErr')
  {
    if failed { FailsLater(sent, arrival, Some(k), k); }
  }

  lemma RecordedAtEnd(sent: seq<Sent>, arrival: seq<nat>, failedAt: Option<nat>, writeErr: Option<Error>)
    requires Recorded(sent, arrival, |arrival|, failedAt, writeErr)
    ensures failedAt.Some? ==> failedAt.value < |arrival|
    ensures InRange(sent, arrival) && writeErr == FirstFailure(sent, arrival, failedAt, |arrival|)
  {}

  ghost predicate Undisturbed(sent: seq<Sent>, arrival: seq<nat>, failedAt: Option<nat>, k: nat)
    requires k <= |arrival| && InRange(sent, arrival)
  {
    forall i :: 0 <= i < k ==> !sent[arrival[i]].Bad? && failedAt != Some(i)
  }

  lemma {:induction false} FailureMeaning(sent: seq<Sent>, arrival: seq<nat>, failedAt: Option<nat>, k: nat)
    requires k <= |arrival| && InRange(sent, arrival)
    ensures var e := FirstFailure(sent, arrival, failedAt, k);
      && (e.None? <==> Undisturbed(sent, arrival, failedAt, k))
      && (e.Some? ==>
            || (e.value == WriteError && failedAt.Some?)
            || exists j :: 0 <= j < k && sent[arrival[j]] == Bad(e.value))
      && forall j :: 0 <= j < k && Undisturbed(sent, arrival, failedAt, j) ==>
        && (sent[arrival[j]].Bad? ==> e == Some(sent[arrival[j]].error))
        && (!sent[arrival[j]].Bad? && failedAt == Some(j) ==> e == Some(WriteError))
  {
    if k > 0 { FailureMeaning(sent, arrival, failedAt, k - 1); }
  }

  /** What the tasks sent, said of what was fetched. */
  ghost predicate SentIs(sent: seq<Sent>, segments: seq<Segment>, fetched: seq<Fetched>) {
    && |sent| == |segments| == |fetched|
    && forall i :: 0 <= i < |segments| ==>
      && (sent[i].Nothing? <==> fetched[i].Skipped?)
      && (sent[i].Data? <==> Good(segments, fetched, i))
      && (sent[i].Bad? ==> sent[i].error == if fetched[i].Failed? then FetchError else OffsetExceedsData)
  }

  lemma SendsAre(segments: seq<Segment>, fetched: seq<Fetched>)
    requires |segments| == |fetched|
    ensures SentIs(Sends(segments, fetched), segments, fetched)
  {
    forall i | 0 <= i < |segments|
      ensures Sends(segments, fetched)[i].Nothing? <==> fetched[i].Skipped?
      ensures Sends(segments, fetched)[i].Data? <==> Good(segments, fetched, i)
      ensures Sends(segments, fetched)[i].Bad? ==>
        Sends(segments, fetched)[i].error == if fetched[i].Failed? then FetchError else OffsetExceedsData
    {
      SendMeaning(segments[i], fetched[i]);
    }
  }

  /** The first failure, said of what was fetched. */
  lemma FirstErrorMeaning(sent: seq<Sent>, segments: seq<Segment>, fetched: seq<Fetched>, arrival: seq<nat>,
                          failedAt: Option<nat>, err: Option<Error>)
    requires SentIs(sent, segments, fetched) && Arrives(sent, arrival)
    requires var first := FirstFailure(sent, arrival, failedAt, |arrival|); first.Some? ==> err == first
    ensures FirstToArrive(segments, fetched, arrival, failedAt, err)
  {
    FailureMeaning(sent, arrival, failedAt, |arrival|);
    hide Good, FirstFailure, Undisturbed;
    forall j | 0 <= j < |arrival| && GoesWell(segments, fetched, arrival, failedAt, j)
      ensures !Good(segments, fetched, arrival[j]) ==>
        err == Some(if fetched[arrival[j]].Failed? then FetchError else OffsetExceedsData)
      ensures Good(segments, fetched, arrival[j]) && failedAt == Some(j) ==> err == Some(WriteError)
    {
      WellIsUndisturbed(sent, segments, fetched, arrival, failedAt, j);
    }
  }

  lemma WellIsUndisturbed(sent: seq<Sent>, segments: seq<Segment>, fetched: seq<Fetched>, arrival: seq<nat>,
                          failedAt: Option<nat>, j: nat)
    requires SentIs(sent, segments, fetched) && Arrives(sent, arrival) && j < |arrival|
    requires GoesWell(segments, fetched, arrival, failedAt, j)
    ensures Undisturbed(sent, arrival, failedAt, j)
  {
    hide Good;
  }

  /** Only tasks that sent nothing went wrong. */
  lemma OnlySkipped(sent: seq<Sent>, segments: seq<Segment>, fetched: seq<Fetched>, arrival: seq<nat>,
                    failedAt: Option<nat>)
    requires SentIs(sent, segments, fetched) && Arrives(sent, arrival)
    requires failedAt.Some? ==> failedAt.value < |arrival|
    ensures FirstFailure(sent, arrival, failedAt, |arrival|).None? <==>
      failedAt.None? && forall i :: 0 <= i < |fetched| ==> fetched[i].Skipped? || Good(segments, fetched, i)
    ensures Nothing in sent <==> Skipped in fetched
  {
    FailureMeaning(sent, arrival, failedAt, |arrival|);
    hide Good, FirstFailure;
    if Undisturbed(sent, arrival, failedAt, |arrival|) {
      forall i | 0 <= i < |fetched| ensures fetched[i].Skipped? || Good(segments, fetched, i) {
        if i in arrival { var j :| 0 <= j < |arrival| && arrival[j] == i; }
      }
    }
  }

  /** The output of a download, said of the file. */
  lemma OutputIsFile(segments: seq<Segment>, fetched: seq<Fetched>, written: seq<byte>, writesFailed: bool)
    requires |segments| == |fetched|
    requires written <= Joined(Sends(segments, fetched), FirstMissing(Sends(segments, fetched)))
    requires !writesFailed ==> written == Joined(Sends(segments, fetched), FirstMissing(Sends(segments, fetched)))
    ensures forall n :: 0 <= n <= |segments| && AllGood(segments, fetched, n)
                        && (n == |segments| || !Good(segments, fetched, n)) ==>
      && written <= FileUpTo(segments, fetched, n)
      && (!writesFailed ==> written == FileUpTo(segments, fetched, n))
    ensures FirstMissing(Sends(segments, fetched)) == |segments| <==> AllGood(segments, fetched, |segments|)
  {
    hide Good, FileUpTo, Joined;
    var m := FirstMissing(Sends(segments, fetched));
    CompleteIffGood(segments, fetched, m);
    JoinedIsFile(segments, fetched, m);
    forall n | 0 <= n <= |segments| && AllGood(segments, fetched, n) && (n == |segments| || !Good(segments, fetched, n))
      ensures n == m
    {
      FirstMissingIs(segments, fetched, n);
    }
  }

  /** The writer's error says what some task met, or that a write failed. */
  lemma ErrorMeaning(segments: seq<Segment>, fetched: seq<Fetched>, arrival: seq<nat>, failedAt: Option<nat>,
                     err: Option<Error>)
    requires |segments| == |fetched| && Arrives(Sends(segments, fetched), arrival)
    requires err == FirstFailure(Sends(segments, fetched), arrival, failedAt, |arrival|)
    ensures err == Some(FetchError) ==> Failed in fetched
    ensures err == Some(OffsetExceedsData) ==>
      exists i :: 0 <= i < |segments| && fetched[i].Body? && !Fits(segments[i], fetched[i].data)
    ensures err == Some(WriteError) ==> failedAt.Some?
    ensures err.Some? ==> err.value in {FetchError, OffsetExceedsData, WriteError}
  {
    FailureMeaning(Sends(segments, fetched), arrival, failedAt, |arrival|);
    forall i | 0 <= i < |segments|
      ensures Sends(segments, fetched)[i] == Bad(FetchError) <==> fetched[i] == Failed
      ensures Sends(segments, fetched)[i] == Bad(OffsetExceedsData) <==>
        fetched[i].Body? && !Fits(segments[i], fetched[i].data)
      ensures Sends(segments, fetched)[i].Bad? ==> Sends(segments, fetched)[i].error in {FetchError, OffsetExceedsData}
    {
      SendMeaning(segments[i], fetched[i]);
    }
  }

  lemma PartOfLast(a: seq<byte>, b: seq<byte>, n: nat)
    requires n <= |b|
    ensures a + b[..n] <= a + b
  {}

  /** Nothing but a failed write stops the writer before the first missing segment. */
  lemma StopsAtMissing(sent: seq<Sent>, arrived: set<nat>, pending: map<nat, seq<byte>>, next: nat,
                       broken: bool, tail: nat, written: seq<byte>)
    requires WriterInv(sent, arrived, pending, next, broken, tail, written) && next !in pending
    requires forall i :: 0 <= i < |sent| && !sent[i].Nothing? ==> i in arrived
    ensures if broken then next < FirstMissing(sent) else next == FirstMissing(sent)
  {
    hide Joined;
    var n := FirstMissing(sent);
    assert n < |sent| ==> !sent[n].Data?;
    assert next < |sent| && !broken ==> !sent[next].Data?;
  }

  /** What the writer's last state means for the output. */
  lemma OutputIsAPrefix(sent: seq<Sent>, arrived: set<nat>, pending: map<nat, seq<byte>>, next: nat,
                        broken: bool, tail: nat, written: seq<byte>)
    requires WriterInv(sent, arrived, pending, next, broken, tail, written) && next !in pending
    requires forall i :: 0 <= i < |sent| && !sent[i].Nothing? ==> i in arrived
    ensures written <= Joined(sent, FirstMissing(sent))
    ensures !broken ==> written == Joined(sent, FirstMissing(sent))
  {
    StopsAtMissing(sent, arrived, pending, next, broken, tail, written);
    hide FirstMissing, Arrives;
    if broken {
      BrokenOutput(sent, next, tail, FirstMissing(sent));
    } else {
      assert Joined(sent, next) + [] == Joined(sent, next);
    }
  }

  lemma BrokenOutput(sent: seq<Sent>, next: nat, tail: nat, n: nat)
    requires next < n <= |sent| && Complete(sent, n) && tail <= |sent[next].data|
    ensures Joined(sent, next) + sent[next].data[..tail] <= Joined(sent, n)
  {
    JoinedGrows(sent, next + 1, n);
    var upTo := Joined(sent, next + 1);
    assert upTo == Joined(sent, next) + sent[next].data;
    hide Joined;
    PartOfLast(Joined(sent, next), sent[next].data, tail);
    assert Joined(sent, next) + sent[next].data[..tail] <= upTo;
  }

  /** Every segment is there exactly when every task sent something and nothing it sent was an error. */
  lemma NothingMissing(sent: seq<Sent>, arrival: seq<nat>)
    requires Arrives(sent, arrival)
    ensures FirstMissing(sent) == |sent| <==>
      Nothing !in sent && forall j :: 0 <= j < |arrival| ==> sent[arrival[j]].Data?
  {
    var n := FirstMissing(sent);
    if Nothing !in sent && n < |sent| {
      assert n in arrival;
      var j :| 0 <= j < |arrival| && arrival[j] == n;
    }
  }

  /** There is no error of any kind exactly when every segment was sent and every write succeeded. */
  lemma NoErrorIff(sent: seq<Sent>, arrival: seq<nat>, failedAt: Option<nat>)
    requires Arrives(sent, arrival) && (failedAt.Some? ==> failedAt.value < |arrival|)
    ensures FirstFailure(sent, arrival, failedAt, |arrival|).None? && Nothing !in sent <==>
      FirstMissing(sent) == |sent| && failedAt.None?
  {
    FailureMeaning(sent, arrival, failedAt, |arrival|);
    NothingMissing(sent, arrival);
    hide FirstFailure, FirstMissing;
  }
}
