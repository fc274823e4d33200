// The signal markers in the terminal transcript and how they behave as the
// transcript grows: scripts/rust-port/mcp-approval-pty.py.
module PtyMarkers {
  import opened Wrappers
  import opened Text
  import opened Numerals

  datatype Signal = SIGINT | SIGTERM

  type Length = n: nat | 0 < n witness 1

  datatype Marker = Marker(len: Length, pid: nat, signal: Signal)

  const TARGET := "PTY_SIGNAL_TARGET pid="
  const IDLE := "PTY_IDLE_SIGNAL pid="

  // The length of " signal=" and a signal name at position p, and the name.
  function TailAt(t: string, p: nat): (r: Option<(nat, Signal)>)
    ensures r.Some? ==> p + r.value.0 <= |t|
  {
    if At(t, " signal=SIGINT", p) then Some((14, SIGINT))
    else if At(t, " signal=SIGTERM", p) then Some((15, SIGTERM))
    else None
  }

  // What follows the head of a marker: one or more digits and a tail. The
  // value is the end of it, the number and the signal.
  function BodyAt(t: string, p: nat): (r: Option<(nat, nat, Signal)>)
    requires p <= |t|
    ensures r.Some? ==> p < r.value.0 <= |t|
  {
    var end := DigitsEnd(t, p);
    if end == p then None
    else match TailAt(t, end)
      case Some((len, signal)) => Some((end + len, Value(t[p..end], 10), signal))
      case None => None
  }

  // The marker that starts at position p, if one does.
  function MarkerAt(t: string, head: string, p: nat): (r: Option<Marker>)
    ensures r.Some? ==> At(t, head, p) && p + r.value.len <= |t| && |head| < r.value.len
  {
    if !At(t, head, p) then None
    else match BodyAt(t, p + |head|)
      case Some((end, pid, signal)) => Some(Marker(end - p, pid, signal))
      case None => None
  }

  // What starts at each position of the text.
  function Starts(t: string, head: string): seq<Option<Marker>>
  {
    seq(|t|, p requires 0 <= p < |t| => MarkerAt(t, head, p))
  }

  // The markers from position `from` on, left to right, without overlap.
  function Collect(starts: seq<Option<Marker>>, from: nat): seq<Marker>
    decreases |starts| - from
  {
    if from >= |starts| then []
    else match starts[from]
      case Some(m) => [m] + Collect(starts, from + m.len)
      case None => Collect(starts, from + 1)
  }

  function FindIter(t: string, head: string): seq<Marker>
  {
    Collect(Starts(t, head), 0)
  }

  // The initial of a head occurs nowhere else in the head.
  predicate Distinctive(head: string)
  {
    head != "" && head[0] == 'P' && forall k :: 0 < k < |head| ==> head[k] != 'P'
  }

  lemma HeadsAreDistinctive()
    ensures Distinctive(TARGET) && Distinctive(IDLE)
  {
  }

  lemma DigitsEndStable(t: string, more: string, from: nat)
    requires from <= |t|
    requires DigitsEnd(t, from) < |t| || DigitsEnd(t + more, from) < |t|
    ensures DigitsEnd(t + more, from) == DigitsEnd(t, from)
    decreases |t| - from
  {
    if from < |t| && IsDigit(t[from], 10) {
      DigitsEndStable(t, more, from + 1);
    }
  }

  // A tail that is complete in either text is the same in both.
  lemma TailStable(t: string, more: string, p: nat)
    requires TailAt(t, p).Some? || (TailAt(t + more, p).Some? && p + TailAt(t + more, p).value.0 <= |t|)
    ensures TailAt(t + more, p) == TailAt(t, p)
  {
    AtStable(t, more, " signal=SIGINT", p);
    AtStable(t, more, " signal=SIGTERM", p);
    TailLength(t, p);
    TailLength(t + more, p);
  }

  lemma TailLength(t: string, p: nat)
    ensures TailAt(t, p).Some? ==> TailAt(t, p).value.0 >= 14
  {
  }

  lemma BodyStable(t: string, more: string, p: nat)
    requires p <= |t|
    requires BodyAt(t, p).Some? || (BodyAt(t + more, p).Some? && BodyAt(t + more, p).value.0 <= |t|)
    ensures BodyAt(t + more, p) == BodyAt(t, p)
  {
    TailLength(t, DigitsEnd(t, p));
    TailLength(t + more, DigitsEnd(t + more, p));
    DigitsEndStable(t, more, p);
    var end := DigitsEnd(t, p);
    TailStable(t, more, end);
    assert (t + more)[p..end] == t[p..end];
  }

  // A marker that is complete in either text is the same in both: it is
  // unaffected by what is read after it.
  lemma MarkerStable(t: string, more: string, head: string, p: nat)
    requires MarkerAt(t, head, p).Some?
      || (MarkerAt(t + more, head, p).Some? && p + MarkerAt(t + more, head, p).value.len <= |t|)
    ensures MarkerAt(t + more, head, p) == MarkerAt(t, head, p)
  {
    AtStable(t, more, head, p);
    BodyStable(t, more, p + |head|);
  }

  lemma TailInterior(t: string, p: nat)
    requires TailAt(t, p).Some?
    ensures forall q :: p <= q < p + TailAt(t, p).value.0 ==> t[q] != 'P'
  {
    var tail := if At(t, " signal=SIGINT", p) then " signal=SIGINT" else " signal=SIGTERM";
    assert forall k :: 0 <= k < |tail| ==> tail[k] != 'P';
    forall q | p <= q < p + |tail|
      ensures t[q] == tail[q - p]
    {
      assert t[p..p + |tail|][q - p] == t[q];
    }
  }

  // No marker starts inside another one.
  lemma MarkerInterior(t: string, head: string, p: nat)
    requires Distinctive(head) && MarkerAt(t, head, p).Some?
    ensures forall q :: p < q < p + MarkerAt(t, head, p).value.len ==> t[q] != 'P'
  {
    var first := p + |head|;
    TailInterior(t, DigitsEnd(t, first));
    forall q | p < q < first
      ensures t[q] == head[q - p]
    {
      assert t[p..first][q - p] == t[q];
    }
  }

  // A marker that straddles the end of the shorter text is the last thing in it.
  lemma StraddlingMarker(t: string, more: string, head: string, p: nat, q: nat)
    requires Distinctive(head) && p < q < |t|
    requires MarkerAt(t, head, p).None? && MarkerAt(t + more, head, p).Some?
    ensures MarkerAt(t, head, q).None?
  {
    if p + MarkerAt(t + more, head, p).value.len <= |t| {
      MarkerStable(t, more, head, p);
    }
    MarkerInterior(t + more, head, p);
    assert t[q] == (t + more)[q];
    AtChar(t, head, q, 0);
  }

  lemma CollectNothing(starts: seq<Option<Marker>>, from: nat)
    requires forall p :: from <= p < |starts| ==> starts[p].None?
    ensures Collect(starts, from) == []
    decreases |starts| - from
  {
  }

  lemma {:induction false} CollectStable(a: seq<Option<Marker>>, b: seq<Option<Marker>>, from: nat)
    requires |a| <= |b|
    requires forall p :: 0 <= p < |a| && a[p].Some? ==> b[p] == a[p]
    requires forall p, q :: 0 <= p < q < |a| && a[p].None? && b[p].Some? ==> a[q].None?
    ensures Collect(a, from) <= Collect(b, from)
    decreases |a| - from
  {
    if from < |a| {
      match a[from]
      case Some(m) => CollectStable(a, b, from + m.len);
      case None =>
        if b[from].Some? {
          CollectNothing(a, from);
        } else {
          CollectStable(a, b, from + 1);
        }
    }
  }

  // Reading more never changes, drops or reorders the markers found so far.
  lemma FindIterStable(t: string, more: string, head: string)
    requires Distinctive(head)
    ensures FindIter(t, head) <= FindIter(t + more, head)
  {
    forall p: nat | p < |t| && MarkerAt(t, head, p).Some?
      ensures MarkerAt(t + more, head, p) == MarkerAt(t, head, p)
    {
      MarkerStable(t, more, head, p);
    }
    forall p: nat, q: nat | p < q < |t| && MarkerAt(t, head, p).None? && MarkerAt(t + more, head, p).Some?
      ensures MarkerAt(t, head, q).None?
    {
      StraddlingMarker(t, more, head, p, q);
    }
    CollectStable(Starts(t, head), Starts(t + more, head), 0);
  }
}
