/**
 The idle connections of one provider pool, internal/nntp/client.go: a slice used
 as a LIFO stack, whose oldest entries the reaper removes in place from the front.
 */
module ConnStack {
  import opened Wrappers

  /** `lastUsed` is an instant; 0 stands for Go's zero time, which never expires. */
  datatype Entry = Entry(conn: nat, lastUsed: int)

  predicate Expired(e: Entry, now: int, timeout: int) {
    e.lastUsed != 0 && now - e.lastUsed > timeout
  }

  /** What the reaper leaves: it stops at the first entry that has not expired. */
  function Reaped(s: seq<Entry>, now: int, timeout: int): seq<Entry> {
    if s != [] && Expired(s[0], now, timeout) then Reaped(s[1..], now, timeout) else s
  }

  /** What the reaper is for: the entries that have not expired, in their order. */
  function Live(s: seq<Entry>, now: int, timeout: int): seq<Entry> {
    if s == [] then []
    else if Expired(s[0], now, timeout) then Live(s[1..], now, timeout)
    else [s[0]] + Live(s[1..], now, timeout)
  }

  ghost predicate ExpiredFirst(s: seq<Entry>, now: int, timeout: int) {
    forall i, j :: 0 <= i < j < |s| && Expired(s[j], now, timeout) ==> Expired(s[i], now, timeout)
  }

  /** Entries ordered by age, none of them carrying the zero time. */
  ghost predicate ByAge(s: seq<Entry>) {
    && (forall i :: 0 <= i < |s| ==> s[i].lastUsed != 0)
    && (forall i, j :: 0 <= i < j < |s| ==> s[i].lastUsed <= s[j].lastUsed)
  }

  lemma {:induction false} LiveMeaning(s: seq<Entry>, now: int, timeout: int)
    ensures |Live(s, now, timeout)| <= |s|
    ensures forall e :: e in Live(s, now, timeout) <==> e in s && !Expired(e, now, timeout)
    ensures Live(s, now, timeout) == s <==> (forall e :: e in s ==> !Expired(e, now, timeout))
  {
    if s != [] {
      LiveMeaning(s[1..], now, timeout);
      assert s == [s[0]] + s[1..];
    }
  }

  lemma {:induction false} ReapedIsSuffix(s: seq<Entry>, now: int, timeout: int) returns (k: nat)
    ensures k <= |s| && Reaped(s, now, timeout) == s[k..]
    ensures forall i :: 0 <= i < k ==> Expired(s[i], now, timeout)
    ensures k < |s| ==> !Expired(s[k], now, timeout)
  {
    if s != [] && Expired(s[0], now, timeout) {
      var m := ReapedIsSuffix(s[1..], now, timeout);
      k := m + 1;
      assert s[k..] == s[1..][m..];
      forall i | 0 <= i < k ensures Expired(s[i], now, timeout) {
        if i > 0 { assert s[i] == s[1..][i - 1]; }
      }
    } else {
      k := 0;
    }
  }

  /** The early stop is right exactly when no live entry lies below an expired one. */
  lemma {:induction false} ReapExactIff(s: seq<Entry>, now: int, timeout: int)
    ensures Reaped(s, now, timeout) == Live(s, now, timeout) <==> ExpiredFirst(s, now, timeout)
  {
    if s == [] {
    } else if Expired(s[0], now, timeout) {
      ReapExactIff(s[1..], now, timeout);
      if ExpiredFirst(s[1..], now, timeout) {
        forall i, j | 0 <= i < j < |s| && Expired(s[j], now, timeout)
          ensures Expired(s[i], now, timeout)
        {
          if i > 0 { assert s[1..][j - 1] == s[j] && s[1..][i - 1] == s[i]; }
        }
      }
      if ExpiredFirst(s, now, timeout) {
        forall i, j | 0 <= i < j < |s[1..]| && Expired(s[1..][j], now, timeout)
          ensures Expired(s[1..][i], now, timeout)
        {
          assert Expired(s[j + 1], now, timeout) ==> Expired(s[i + 1], now, timeout);
        }
      }
    } else {
      LiveMeaning(s, now, timeout);
      if ExpiredFirst(s, now, timeout) {
        assert forall j :: 0 < j < |s| ==> Expired(s[j], now, timeout) ==> Expired(s[0], now, timeout);
        assert forall e :: e in s ==> !Expired(e, now, timeout);
      }
    }
  }

  /** On a stack ordered by age the reaper removes the expired entries and only those. */
  lemma ReapExactByAge(s: seq<Entry>, now: int, timeout: int)
    requires ByAge(s)
    ensures Reaped(s, now, timeout) == Live(s, now, timeout)
    ensures ByAge(Reaped(s, now, timeout))
  {
    ReapExactIff(s, now, timeout);
    var k := ReapedIsSuffix(s, now, timeout);
  }

  /** The reaper is exact at every moment exactly when the stack is ordered by age. */
  lemma ReapAlwaysExactIff(s: seq<Entry>, timeout: int)
    requires forall i :: 0 <= i < |s| ==> s[i].lastUsed != 0
    ensures (forall now :: Reaped(s, now, timeout) == Live(s, now, timeout)) <==> ByAge(s)
  {
    if ByAge(s) {
      forall now ensures Reaped(s, now, timeout) == Live(s, now, timeout) { ReapExactByAge(s, now, timeout); }
    } else {
      var i, j :| 0 <= i < j < |s| && s[i].lastUsed > s[j].lastUsed;
      var now := s[j].lastUsed + timeout + 1;
      ReapExactIff(s, now, timeout);
      assert Expired(s[j], now, timeout) && !Expired(s[i], now, timeout);
    }
  }

  /** Pushing keeps the age order exactly when the new stamp is not older than the top. */
  lemma PushByAgeIff(s: seq<Entry>, e: Entry)
    requires ByAge(s)
    ensures ByAge(s + [e]) <==> e.lastUsed != 0 && (s == [] || s[|s| - 1].lastUsed <= e.lastUsed)
  {
    var t := s + [e];
    if ByAge(t) && s != [] {
      assert t[|s| - 1].lastUsed <= t[|s|].lastUsed;
    }
    if ByAge(t) { assert t[|s|] == e; }
  }

  class Stack {
    const max: nat
    ghost var Contents: seq<Entry>
    var conns: array<Option<Entry>>
    var len: nat

    /** Slots past `len` are nil, so the stack keeps no connection it no longer holds. */
    ghost predicate Valid()
      reads this, conns
    {
      && len == |Contents| <= conns.Length
      && (forall i :: 0 <= i < len ==> conns[i] == Some(Contents[i]))
      && (forall i :: len <= i < conns.Length ==> conns[i] == None)
    }

    constructor (max: nat)
      ensures Valid() && Contents == [] && this.max == max && fresh(conns)
    {
      this.max := max;
      conns := new Option<Entry>[max](_ => None);
      len := 0;
      Contents := [];
    }

    /** The critical section of `put`: the cap test, then append (which may reallocate). */
    method Push(e: Entry) returns (pushed: bool)
      requires Valid()
      modifies this, conns
      ensures Valid() && (conns == old(conns) || fresh(conns))
      ensures pushed <==> |old(Contents)| < max
      ensures Contents == if pushed then old(Contents) + [e] else old(Contents)
    {
      if len >= max {
        return false;
      }
      if len == conns.Length {
        var grown := new Option<Entry>[2 * len + 1](_ => None);
        for i := 0 to len
          invariant Valid() && conns == old(conns) && Contents == old(Contents) && len == old(len)
          invariant forall k :: 0 <= k < i ==> grown[k] == conns[k]
          invariant forall k :: i <= k < grown.Length ==> grown[k] == None
        {
          grown[i] := conns[i];
        }
        conns := grown;
      }
      conns[len] := Some(e);
      len := len + 1;
      Contents := Contents + [e];
      return true;
    }

    /** The critical section of `getOrCreateFromPool`; None when the stack is empty. */
    method Pop() returns (top: Option<Entry>)
      requires Valid()
      modifies this, conns
      ensures Valid() && conns == old(conns)
      ensures old(Contents) == [] ==> top == None && Contents == []
      ensures old(Contents) != [] ==>
        top == Some(old(Contents)[|old(Contents)| - 1]) && Contents == old(Contents)[..|old(Contents)| - 1]
    {
      if len == 0 {
        return None;
      }
      top := conns[len - 1];
      conns[len - 1] := None;
      len := len - 1;
      Contents := Contents[..len];
    }

    /** One pool's share of a reaper tick: count the expired front, shift, clear the tail. */
    method Reap(now: int, timeout: int) returns (closed: seq<Entry>)
      requires Valid()
      modifies this, conns
      ensures Valid() && conns == old(conns)
      ensures Contents == Reaped(old(Contents), now, timeout)
      ensures closed + Contents == old(Contents)
      ensures forall i :: 0 <= i < |closed| ==> closed[i].lastUsed != 0 && now - closed[i].lastUsed > timeout
      ensures Contents != [] ==> Contents[0].lastUsed == 0 || now - Contents[0].lastUsed <= timeout
    {
      var expired := 0;
      closed := [];
      while expired < len && Expired(conns[expired].value, now, timeout)
        invariant 0 <= expired <= len
        invariant closed == Contents[..expired]
        invariant forall i :: 0 <= i < expired ==> Expired(closed[i], now, timeout)
        invariant Reaped(Contents, now, timeout) == Reaped(Contents[expired..], now, timeout)
      {
        closed := closed + [conns[expired].value];
        assert Contents[expired..][1..] == Contents[expired + 1..];
        expired := expired + 1;
      }
      RemoveFront(expired);
    }

    /** copy(conns, conns[expired:]) on the live part of the slice. */
    method ShiftDown(expired: nat)
      requires Valid() && expired <= len
      modifies conns
      ensures forall k :: 0 <= k < len - expired ==> conns[k] == Some(Contents[k + expired])
      ensures forall k :: len <= k < conns.Length ==> conns[k] == None
    {
      for i := 0 to len - expired
        invariant forall k :: 0 <= k < i ==> conns[k] == Some(Contents[k + expired])
        invariant forall k :: i <= k < len ==> conns[k] == Some(Contents[k])
        invariant forall k :: len <= k < conns.Length ==> conns[k] == None
      {
        conns[i] := conns[i + expired];
      }
    }

    /** The shift of the reaper: the slots behind the remaining entries become nil. */
    method RemoveFront(expired: nat)
      requires Valid() && expired <= len
      modifies this, conns
      ensures Valid() && conns == old(conns)
      ensures Contents == old(Contents)[expired..]
    {
      if expired > 0 {
        var remaining := len - expired;
        ShiftDown(expired);
        for i := remaining to len
          invariant len == old(len) && conns == old(conns) && Contents == old(Contents)
          invariant forall k :: 0 <= k < remaining ==> conns[k] == Some(Contents[k + expired])
          invariant forall k :: remaining <= k < i ==> conns[k] == None
          invariant forall k :: len <= k < conns.Length ==> conns[k] == None
        {
          conns[i] := None;
        }
        len := remaining;
        Contents := Contents[expired..];
      }
    }
  }
}
