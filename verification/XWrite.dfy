/** Writing everything through a system call that may write less (util/xwrite.c). */
module XWrite {
  import opened Bytes

  /** A descriptor; `written` is all that has gone out through it. */
  class Descriptor {
    var written: Data

    constructor ()
      ensures written == []
    {
      written := [];
    }

    /** `write`: writes some prefix, possibly nothing, or fails, possibly because it was interrupted. */
    method Write(data: Data) returns (status: int, interrupted: bool)
      modifies this
      ensures -1 <= status <= |data|
      ensures written == old(written) + data[..if status > 0 then status else 0]
    {
      status, interrupted := *, *;
      if !(-1 <= status <= |data|) {
        status := -1;
      }
      written := written + data[..if status > 0 then status else 0];
    }

    /** A `write` of which the system takes exactly these octets. */
    method Take(data: Data)
      modifies this
      ensures written == old(written) + data
    {
      written := written + data;
    }

    /** `writev`. */
    method Writev(iov: seq<Data>) returns (status: int, interrupted: bool)
      modifies this
      ensures -1 <= status <= |Flatten(iov)|
      ensures written == old(written) + Flatten(iov)[..if status > 0 then status else 0]
    {
      status, interrupted := Write(Flatten(iov));
    }
  }

  /** The result of one call of `write` or `writev`, negative for a failure. */
  datatype Call = Call(status: int, interrupted: bool)

  /** The octets that a list of calls accounts for. */
  function Progress(calls: seq<Call>): (n: nat)
    decreases |calls|
  {
    if calls == [] then 0
    else Progress(calls[..|calls| - 1]) + if calls[|calls| - 1].status > 0 then calls[|calls| - 1].status else 0
  }

  /** The number of calls without progress at the end of a list. */
  function IdleTail(calls: seq<Call>): (n: nat)
    ensures n <= |calls|
    decreases |calls|
  {
    if calls == [] || calls[|calls| - 1].status > 0 then 0 else 1 + IdleTail(calls[..|calls| - 1])
  }

  predicate Fatal(call: Call)
  {
    call.status < 0 && !call.interrupted
  }

  /** The reasons to give up: a failure other than an interruption, or ten calls in a row without progress. */
  predicate GivesUp(calls: seq<Call>)
  {
    calls != [] && (Fatal(calls[|calls| - 1]) || IdleTail(calls) == 10)
  }

  /** No call was made after a reason to give up. */
  predicate Patient(calls: seq<Call>)
    decreases |calls|
  {
    calls == [] || (IdleTail(calls) <= 10 && !GivesUp(calls[..|calls| - 1]) && Patient(calls[..|calls| - 1]))
  }

  lemma CallStep(calls: seq<Call>, call: Call)
    requires Patient(calls) && !GivesUp(calls)
    ensures Patient(calls + [call])
    ensures IdleTail(calls + [call]) == if call.status > 0 then 0 else IdleTail(calls) + 1
    ensures Progress(calls + [call]) == Progress(calls) + if call.status > 0 then call.status else 0
    ensures GivesUp(calls + [call]) <==> Fatal(call) || IdleTail(calls + [call]) == 10
  {
    var all := calls + [call];
    assert all[..|all| - 1] == calls;
  }

  lemma {:induction false} IdleTailMeaning(calls: seq<Call>, n: nat)
    requires n <= |calls| && forall i :: |calls| - n <= i < |calls| ==> calls[i].status <= 0
    ensures IdleTail(calls) >= n
  {
    if n > 0 {
      IdleTailMeaning(calls[..|calls| - 1], n - 1);
    }
  }

  /** Giving up in plain words: the last call failed for good, or the last ten made no progress. */
  lemma GivesUpMeaning(calls: seq<Call>)
    requires Patient(calls)
    ensures GivesUp(calls) <==>
      calls != [] && (Fatal(calls[|calls| - 1]) ||
                      (|calls| >= 10 && forall i :: |calls| - 10 <= i < |calls| ==> calls[i].status <= 0))
  {
    if IdleTail(calls) >= 10 {
      IdleTailCalls(calls);
    }
    if |calls| >= 10 && forall i :: |calls| - 10 <= i < |calls| ==> calls[i].status <= 0 {
      IdleTailMeaning(calls, 10);
    }
  }

  lemma {:induction false} IdleTailCalls(calls: seq<Call>)
    ensures forall i :: |calls| - IdleTail(calls) <= i < |calls| ==> calls[i].status <= 0
  {
    if calls != [] && calls[|calls| - 1].status <= 0 {
      IdleTailCalls(calls[..|calls| - 1]);
    }
  }

  /** Patience in plain words: among any eleven calls in a row one makes progress, and only the last can be fatal. */
  lemma {:induction false} PatientMeaning(calls: seq<Call>, from: nat)
    requires Patient(calls)
    ensures from + 11 <= |calls| ==> exists i :: from <= i < from + 11 && calls[i].status > 0
    ensures from + 1 < |calls| ==> !Fatal(calls[from])
  {
    if from + 1 < |calls| {
      var shorter := calls[..|calls| - 1];
      PatientMeaning(shorter, from);
      if from + 11 < |calls| {
        var i :| from <= i < from + 11 && shorter[i].status > 0;
        assert calls[i].status > 0;
      } else if from + 11 == |calls| && forall i :: from <= i < from + 11 ==> calls[i].status <= 0 {
        IdleTailMeaning(calls, 11);
        assert false;
      }
    }
  }

  /**
   * What a complete or incomplete write did: a prefix went out, once and in order, the result says if it
   * was all, and if not there was a reason to give up.
   */
  ghost predicate Wrote(before: Data, after: Data, data: Data, calls: seq<Call>, r: int)
  {
    && Patient(calls)
    && Progress(calls) <= |data|
    && after == before + data[..Progress(calls)]
    && r == (if Progress(calls) == |data| then |data| else -1)
    && (Progress(calls) < |data| ==> GivesUp(calls))
  }

  lemma PrefixGrows(before: Data, data: Data, n: nat, m: nat)
    requires n + m <= |data|
    ensures before + data[..n] + data[n..][..m] == before + data[..n + m]
  {
    assert data[..n] + data[n..][..m] == data[..n + m];
  }

  method XWrite(fd: Descriptor, buffer: Data) returns (r: int, ghost calls: seq<Call>)
    modifies fd
    ensures Wrote(old(fd.written), fd.written, buffer, calls, r)
  {
    calls := [];
    assert old(fd.written) + buffer[..0] == old(fd.written);
    var size := |buffer|;
    if size == 0 {
      return 0, calls;
    }
    var total, count := 0, 0;
    while total < size
      invariant 0 <= total <= size && total == Progress(calls)
      invariant Patient(calls) && count == IdleTail(calls) <= 10 && (GivesUp(calls) <==> count == 10)
      invariant fd.written == old(fd.written) + buffer[..total]
      decreases size - total, 10 - count
    {
      count := count + 1;
      if count > 10 {
        break;
      }
      var status, interrupted := fd.Write(buffer[total..]);
      CallStep(calls, Call(status, interrupted));
      PrefixGrows(old(fd.written), buffer, total, if status > 0 then status else 0);
      calls := calls + [Call(status, interrupted)];
      if status > 0 {
        count := 0;
      }
      if status < 0 {
        if !interrupted {
          break;
        }
        status := 0;
      }
      total := total + status;
    }
    r := if total < size then -1 else total;
  }

  lemma FlattenFrom(iov: seq<Data>, i: nat)
    requires i < |iov|
    ensures Flatten(iov[i..]) == iov[i] + Flatten(iov[i + 1..])
  {
    assert iov[i..][0] == iov[i] && iov[i..][1..] == iov[i + 1..];
  }

  lemma FlattenTo(iov: seq<Data>, i: nat)
    requires i < |iov|
    ensures Flatten(iov[..i + 1]) == Flatten(iov[..i]) + iov[i]
  {
    assert iov[..i + 1] == iov[..i] + [iov[i]];
    FlattenSnoc(iov[..i], iov[i]);
  }

  /** The first loop: tries to write everything at once as long as it is only interrupted. */
  method FirstTry(fd: Descriptor, iov: seq<Data>) returns (status: int, count: nat, ghost calls: seq<Call>)
    modifies fd
    ensures -1 <= status <= |Flatten(iov)|
    ensures Patient(calls) && IdleTail(calls) == count <= 10 && Progress(calls) == if status > 0 then status else 0
    ensures fd.written == old(fd.written) + Flatten(iov)[..Progress(calls)]
    ensures if status < 0 then GivesUp(calls) else GivesUp(calls) <==> count == 10
  {
    count, calls, status := 0, [], -1;
    var interrupted := true;
    ghost var data := Flatten(iov);
    assert old(fd.written) + data[..0] == old(fd.written);
    while status < 0 && interrupted && count < 10
      invariant -1 <= status <= |data|
      invariant Patient(calls) && IdleTail(calls) == count <= 10 && Progress(calls) == if status > 0 then status else 0
      invariant fd.written == old(fd.written) + data[..Progress(calls)]
      invariant if status < 0 && !interrupted then GivesUp(calls) else GivesUp(calls) <==> count == 10
      decreases status < 0, 10 - count
    {
      status, interrupted := fd.Writev(iov);
      CallStep(calls, Call(status, interrupted));
      calls := calls + [Call(status, interrupted)];
      count := if status > 0 then 0 else count + 1;
    }
  }

  /** Finds the entry that holds the first octet not yet written; it never looks past the array. */
  method SkipWritten(iov: seq<Data>, offset0: nat) returns (i: nat, offset: nat)
    requires offset0 < |Flatten(iov)|
    ensures i < |iov| && offset < |iov[i]|
    ensures Flatten(iov)[offset0..] == Flatten(iov[i..])[offset..]
    ensures |Flatten(iov)| - offset0 == |Flatten(iov[i..])| - offset
  {
    i, offset := 0, offset0;
    assert iov[0..] == iov;
    while offset >= (assert i < |iov|; |iov[i]|)
      invariant i <= |iov| && offset < |Flatten(iov[i..])|
      invariant Flatten(iov)[offset0..] == Flatten(iov[i..])[offset..]
      invariant |Flatten(iov)| - offset0 == |Flatten(iov[i..])| - offset
      decreases |iov| - i
    {
      FlattenFrom(iov, i);
      offset := offset - |iov[i]|;
      i := i + 1;
    }
  }

  method XWritev(fd: Descriptor, iov: seq<Data>, iovcnt: int) returns (r: int, ghost calls: seq<Call>)
    requires iovcnt <= |iov|
    modifies fd
    ensures iovcnt < 0 ==> r == -1 && fd.written == old(fd.written)
    ensures iovcnt >= 0 ==> Wrote(old(fd.written), fd.written, Flatten(iov[..iovcnt]), calls, r)
  {
    calls := [];
    if iovcnt < 0 {
      return -1, calls;
    }
    ghost var data := Flatten(iov[..iovcnt]);
    assert old(fd.written) + data[..0] == old(fd.written);
    if iovcnt == 0 {
      return 0, calls;
    }
    var total, k := 0, 0;
    while k < iovcnt
      modifies {}
      invariant 0 <= k <= iovcnt && total == |Flatten(iov[..k])|
    {
      FlattenTo(iov, k);
      total := total + |iov[k]|;
      k := k + 1;
    }
    if total == 0 {
      return 0, calls;
    }
    var status, count;
    status, count, calls := FirstTry(fd, iov[..iovcnt]);
    if status < 0 {
      return -1, calls;
    }
    if status == total {
      return total, calls;
    }
    var i, offset := SkipWritten(iov[..iovcnt], status);
    var left := total - status;
    ghost var more;
    left, more := WriteRest(fd, iov[..iovcnt][i..], offset, left, count, calls, data, old(fd.written));
    calls := more;
    r := if left == 0 then total else -1;
  }

  /** The second loop, on a copy of the entries left, which it shortens in place. */
  method WriteRest(fd: Descriptor, iov: seq<Data>, offset0: nat, left0: nat, count0: nat, ghost before: seq<Call>,
                   ghost data: Data, ghost start: Data)
    returns (left: nat, ghost calls: seq<Call>)
    requires left0 > 0 && offset0 + left0 == |Flatten(iov)| && left0 <= |data|
    requires Flatten(iov)[offset0..] == data[|data| - left0..]
    requires Patient(before) && IdleTail(before) == count0 <= 10 && Progress(before) == |data| - left0
    requires fd.written == start + data[..Progress(before)] && (GivesUp(before) <==> count0 == 10)
    modifies fd
    ensures Patient(calls) && left <= |data| && Progress(calls) == |data| - left && (left > 0 ==> GivesUp(calls))
    ensures fd.written == start + data[..Progress(calls)]
  {
    hide Flatten, Patient, IdleTail, Progress, GivesUp;
    calls, left := before, left0;
    var tmpiov := new Data[|iov|](k requires 0 <= k < |iov| => iov[k]);
    assert tmpiov[..] == iov && tmpiov[0..] == iov;
    var i: nat, offset: nat, count, again := 0, offset0, count0, true;
    while again && count < 10
      invariant if again then left > 0 && (GivesUp(calls) <==> count == 10) else left > 0 ==> GivesUp(calls)
      invariant i <= tmpiov.Length && left <= |data|
      invariant left > 0 ==> offset + left == |Flatten(tmpiov[i..])| &&
                             Flatten(tmpiov[i..])[offset..] == data[|data| - left..]
      invariant Patient(calls) && IdleTail(calls) == count <= 10 && Progress(calls) == |data| - left
      invariant fd.written == start + data[..Progress(calls)]
      decreases left, 10 - count, again
    {
      i, offset := SkipAndTrim(tmpiov, i, offset);
      var status, interrupted := fd.Writev(tmpiov[i..]);
      CallStep(calls, Call(status, interrupted));
      ghost var done := |data| - left;
      assert Flatten(tmpiov[i..]) == data[done..];
      PrefixGrows(start, data, done, if status > 0 then status else 0);
      calls := calls + [Call(status, interrupted)];
      if status <= 0 {
        offset, count := 0, count + 1;
        assert Flatten(tmpiov[i..])[0..] == Flatten(tmpiov[i..]);
      } else {
        offset, left, count := status, left - status, 0;
      }
      again := left > 0 && (status >= 0 || interrupted);
    }
  }

  /** Skips the entries already written and cuts the written part off the first one left. */
  method SkipAndTrim(tmpiov: array<Data>, i0: nat, offset0: nat) returns (i: nat, offset: nat)
    requires i0 <= tmpiov.Length && offset0 < |Flatten(tmpiov[i0..])|
    modifies tmpiov
    ensures i < tmpiov.Length && Flatten(tmpiov[i..]) == old(Flatten(tmpiov[i0..]))[offset0..]
  {
    i, offset := i0, offset0;
    var iovleft := tmpiov.Length - i;
    while offset >= (assert i < tmpiov.Length; |tmpiov[i]|) && iovleft > 0
      modifies {}
      invariant i <= tmpiov.Length && iovleft == tmpiov.Length - i && offset < |Flatten(tmpiov[i..])|
      invariant old(Flatten(tmpiov[i0..]))[offset0..] == Flatten(tmpiov[i..])[offset..]
      decreases iovleft
    {
      ArrayFlattenFrom(tmpiov, i);
      offset := offset - |tmpiov[i]|;
      i, iovleft := i + 1, iovleft - 1;
    }
    ArrayFlattenFrom(tmpiov, i);
    ghost var rest := tmpiov[i + 1..];
    tmpiov[i] := tmpiov[i][offset..];
    assert tmpiov[i + 1..] == rest;
    ArrayFlattenFrom(tmpiov, i);
  }

  lemma ArrayFlattenFrom(a: array<Data>, i: nat)
    requires i < a.Length
    ensures Flatten(a[i..]) == a[i] + Flatten(a[i + 1..])
  {
    assert a[i..] == a[..][i..] && a[i + 1..] == a[..][i + 1..];
    FlattenFrom(a[..], i);
  }
}
