/**
 * The backplane's event loop, as far as the scheduler can see it: what it puts on the
 * registration channel for the events its transports deliver.
 */
module Backplane {
  import opened SchedulerState

  /** `threads` are the tokens of the threads the board comes up with, none if it fails to. */
  datatype TransportEvent =
    | DeviceConnected(threads: seq<nat>)
    | DeviceDisconnected
    | ScanComplete

  /** An event and the index of the transport it came from. */
  datatype Incoming = Incoming(transport: nat, event: TransportEvent)

  class Backplane {
    var schedulerTx: seq<ThreadRegistration>

    constructor ()
      ensures schedulerTx == []
    {
      schedulerTx := [];
    }

    method SendEnumerationComplete()
      modifies this
      ensures schedulerTx == old(schedulerTx) + [InitialEnumerationComplete]
    {
      schedulerTx := schedulerTx + [InitialEnumerationComplete];
    }

    method StartBoard(threads: seq<nat>)
      modifies this
      ensures schedulerTx == old(schedulerTx) + Registrations(threads)
    {
      for k := 0 to |threads|
        invariant schedulerTx == old(schedulerTx) + Registrations(threads[..k])
      {
        assert threads[..k + 1][..k] == threads[..k];
        schedulerTx := schedulerTx + [Thread(threads[k])];
      }
      assert threads[..|threads|] == threads;
    }

    /** Runs over the events the stream map yields, in the order it yields them. */
    method Run(transportCount: nat, incoming: seq<Incoming>)
      requires schedulerTx == [] && forall k :: 0 <= k < |incoming| ==> incoming[k].transport < transportCount
      modifies this
      ensures schedulerTx == Output(transportCount, incoming)
    {
      var completed: set<nat> := {};
      var completionSent := false;
      if transportCount == 0 {
        SendEnumerationComplete();
        completionSent := true;
      }
      for k := 0 to |incoming|
        invariant schedulerTx == Output(transportCount, incoming[..k])
        invariant completed == Completed(incoming[..k])
        invariant completionSent <==> |completed| == transportCount
      {
        assert incoming[..k + 1][..k] == incoming[..k];
        CompletedBound(incoming[..k], transportCount);
        CompletedBound(incoming[..k + 1], transportCount);
        match incoming[k].event {
          case DeviceConnected(threads) =>
            if threads != [] {
              StartBoard(threads);
            }
          case DeviceDisconnected =>
          case ScanComplete =>
            completed := completed + {incoming[k].transport};
            if !completionSent && |completed| == transportCount {
              SendEnumerationComplete();
              completionSent := true;
            }
        }
      }
      assert incoming[..|incoming|] == incoming;
    }
  }

  // ------------------------------------------------------- specification

  function Registrations(threads: seq<nat>): (r: seq<ThreadRegistration>)
    ensures |r| == |threads|
  {
    if threads == [] then [] else Registrations(threads[..|threads| - 1]) + [Thread(threads[|threads| - 1])]
  }

  /** The transports that have reported their initial scan. */
  function Completed(incoming: seq<Incoming>): set<nat> {
    if incoming == [] then {}
    else
      var last := incoming[|incoming| - 1];
      Completed(incoming[..|incoming| - 1]) + if last.event.ScanComplete? then {last.transport} else {}
  }

  function Output(transportCount: nat, incoming: seq<Incoming>): seq<ThreadRegistration> {
    if incoming == [] then if transportCount == 0 then [InitialEnumerationComplete] else []
    else
      var before := incoming[..|incoming| - 1];
      var sent := Output(transportCount, before);
      match incoming[|incoming| - 1].event
      case DeviceConnected(threads) => sent + Registrations(threads)
      case DeviceDisconnected => sent
      case ScanComplete =>
        if |Completed(before)| < transportCount && |Completed(incoming)| == transportCount
        then sent + [InitialEnumerationComplete]
        else sent
  }

  function Below(n: nat): (s: set<nat>)
    ensures |s| == n && forall k :: k in s <==> 0 <= k < n
  {
    if n == 0 then {} else Below(n - 1) + {n - 1}
  }

  lemma SubsetSize<T>(a: set<T>, b: set<T>)
    requires a <= b
    ensures |a| <= |b| && (|a| == |b| ==> a == b)
  {
    assert b == a + (b - a);
  }

  lemma {:induction false} CompletedBound(incoming: seq<Incoming>, transportCount: nat)
    requires forall k :: 0 <= k < |incoming| ==> incoming[k].transport < transportCount
    ensures Completed(incoming) <= Below(transportCount) && |Completed(incoming)| <= transportCount
  {
    if incoming != [] {
      CompletedBound(incoming[..|incoming| - 1], transportCount);
    }
    SubsetSize(Completed(incoming), Below(transportCount));
  }

  ghost predicate Scanned(incoming: seq<Incoming>, transport: nat) {
    exists k :: 0 <= k < |incoming| && incoming[k] == Incoming(transport, ScanComplete)
  }

  lemma {:induction false} CompletedMeans(incoming: seq<Incoming>, transport: nat)
    ensures transport in Completed(incoming) <==> Scanned(incoming, transport)
  {
    if incoming != [] {
      var before := incoming[..|incoming| - 1];
      CompletedMeans(before, transport);
      assert forall k :: 0 <= k < |before| ==> incoming[k] == before[k];
      if Scanned(before, transport) {
        var k :| 0 <= k < |before| && before[k] == Incoming(transport, ScanComplete);
        assert incoming[k] == Incoming(transport, ScanComplete);
      }
    }
  }

  // ------------------------------------------------------------- results

  function Markers(regs: seq<ThreadRegistration>): nat {
    if regs == [] then 0
    else Markers(regs[..|regs| - 1]) + if regs[|regs| - 1].InitialEnumerationComplete? then 1 else 0
  }

  lemma {:induction false} MarkersAppend(a: seq<ThreadRegistration>, threads: seq<nat>)
    ensures Markers(a + Registrations(threads)) == Markers(a)
    decreases |threads|
  {
    if threads == [] {
      assert a + Registrations(threads) == a;
    } else {
      MarkersAppend(a, threads[..|threads| - 1]);
      var all := a + Registrations(threads);
      assert all[..|all| - 1] == a + Registrations(threads[..|threads| - 1]);
    }
  }

  /** The tokens of the threads registered by a prefix of the channel. */
  ghost function Tokens(regs: seq<ThreadRegistration>): seq<nat> {
    if regs == [] then []
    else Tokens(regs[..|regs| - 1]) + match regs[|regs| - 1]
      case Thread(token) => [token]
      case InitialEnumerationComplete => []
  }

  /** The threads of all devices announced, in the order they were. */
  ghost function Announced(incoming: seq<Incoming>): seq<nat> {
    if incoming == [] then []
    else
      var last := incoming[|incoming| - 1].event;
      Announced(incoming[..|incoming| - 1]) + if last.DeviceConnected? then last.threads else []
  }

  lemma {:induction false} TokensAppend(a: seq<ThreadRegistration>, threads: seq<nat>)
    ensures Tokens(a + Registrations(threads)) == Tokens(a) + threads
    decreases |threads|
  {
    if threads == [] {
      assert a + Registrations(threads) == a;
    } else {
      var front, last := threads[..|threads| - 1], threads[|threads| - 1];
      TokensAppend(a, front);
      TokensSnoc(a + Registrations(front), last);
      Regrouped(a, Registrations(front), [Thread(last)]);
      Regrouped(Tokens(a), front, [last]);
      assert threads == front + [last];
    }
  }

  lemma Regrouped<T>(a: seq<T>, b: seq<T>, c: seq<T>)
    ensures a + (b + c) == a + b + c
  {
  }

  lemma TokensSnoc(regs: seq<ThreadRegistration>, token: nat)
    ensures Tokens(regs + [Thread(token)]) == Tokens(regs) + [token]
  {
    assert (regs + [Thread(token)])[..|regs|] == regs;
  }

  /**
   * Whenever a device is announced, before its transport's scan is complete or after, its
   * threads are registered: the tokens on the channel are those of all devices, in order.
   */
  lemma {:induction false} EveryThreadRegistered(transportCount: nat, incoming: seq<Incoming>)
    ensures Tokens(Output(transportCount, incoming)) == Announced(incoming)
  {
    if incoming == [] {
      assert [InitialEnumerationComplete][..0] == [];
    } else {
      var before := incoming[..|incoming| - 1];
      EveryThreadRegistered(transportCount, before);
      var sent := Output(transportCount, before);
      match incoming[|incoming| - 1].event {
        case DeviceConnected(threads) => TokensAppend(sent, threads);
        case DeviceDisconnected =>
        case ScanComplete => assert (sent + [InitialEnumerationComplete])[..|sent|] == sent;
      }
    }
  }

  lemma AllScanned(transportCount: nat, incoming: seq<Incoming>)
    requires forall k :: 0 <= k < |incoming| ==> incoming[k].transport < transportCount
    ensures |Completed(incoming)| == transportCount <==> forall t: nat :: t < transportCount ==> Scanned(incoming, t)
  {
    CompletedBound(incoming, transportCount);
    SubsetSize(Completed(incoming), Below(transportCount));
    forall t: nat ensures t in Completed(incoming) <==> Scanned(incoming, t) {
      CompletedMeans(incoming, t);
    }
    assert |Completed(incoming)| == transportCount <==> Completed(incoming) == Below(transportCount);
  }

  /** The marker is sent at most once, and has been sent exactly when every transport has reported its scan. */
  lemma {:induction false} MarkerOnceWhenAllScanned(transportCount: nat, incoming: seq<Incoming>)
    requires forall k :: 0 <= k < |incoming| ==> incoming[k].transport < transportCount
    ensures Markers(Output(transportCount, incoming)) == if |Completed(incoming)| == transportCount then 1 else 0
    ensures |Completed(incoming)| == transportCount <==> forall t: nat :: t < transportCount ==> Scanned(incoming, t)
  {
    AllScanned(transportCount, incoming);
    CompletedBound(incoming, transportCount);
    if incoming != [] {
      var before := incoming[..|incoming| - 1];
      MarkerOnceWhenAllScanned(transportCount, before);
      CompletedBound(before, transportCount);
      SubsetSize(Completed(before), Completed(incoming));
      match incoming[|incoming| - 1].event {
        case DeviceConnected(threads) => MarkersAppend(Output(transportCount, before), threads);
        case DeviceDisconnected =>
        case ScanComplete =>
          var sent := Output(transportCount, before);
          assert (sent + [InitialEnumerationComplete])[..|sent|] == sent;
      }
    }
  }

  /** The channel only grows: what was sent stays in front of what follows. */
  lemma {:induction false} OutputGrows(transportCount: nat, incoming: seq<Incoming>, more: nat)
    requires more <= |incoming|
    ensures Output(transportCount, incoming[..more]) <= Output(transportCount, incoming)
    decreases |incoming|
  {
    if more < |incoming| {
      var before := incoming[..|incoming| - 1];
      OutputGrows(transportCount, before, more);
      assert before[..more] == incoming[..more];
    } else {
      assert incoming[..more] == incoming;
    }
  }

  /** A starting device: one its transport announced before reporting its initial scan complete. */
  ghost predicate Starting(incoming: seq<Incoming>, k: nat) {
    && k < |incoming| && incoming[k].event.DeviceConnected?
    && !Scanned(incoming[..k], incoming[k].transport)
  }

  lemma {:induction false} RegistrationsAt(threads: seq<nat>, i: nat)
    requires i < |threads|
    ensures Registrations(threads)[i] == Thread(threads[i])
  {
    if i < |threads| - 1 {
      RegistrationsAt(threads[..|threads| - 1], i);
    }
  }

  /**
   * Every thread of a starting device is on the channel in front of the marker: whatever
   * prefix of the channel holds the marker has, ahead of it, a place for that thread.
   */
  lemma StartersPrecedeMarker(transportCount: nat, incoming: seq<Incoming>, k: nat, i: nat) returns (at: nat)
    requires forall j :: 0 <= j < |incoming| ==> incoming[j].transport < transportCount
    requires Starting(incoming, k) && i < |incoming[k].event.threads|
    ensures at < |Output(transportCount, incoming)|
            && Output(transportCount, incoming)[at] == Thread(incoming[k].event.threads[i])
    ensures forall m :: 0 <= m <= at ==> !Output(transportCount, incoming)[m].InitialEnumerationComplete?
  {
    var upTo, past := incoming[..k], incoming[..k + 1];
    var threads := incoming[k].event.threads;
    var sent := Output(transportCount, upTo);
    assert past[..k] == upTo;
    MarkerOnceWhenAllScanned(transportCount, upTo);
    MarkersAppend(sent, threads);
    NoMarker(sent + Registrations(threads));
    OutputGrows(transportCount, incoming, k + 1);
    at := |sent| + i;
    RegistrationsAt(threads, i);
    var whole := Output(transportCount, incoming);
    assert Output(transportCount, past) == sent + Registrations(threads);
    assert forall m :: 0 <= m <= at ==> whole[m] == Output(transportCount, past)[m];
  }

  lemma {:induction false} NoMarker(regs: seq<ThreadRegistration>)
    requires Markers(regs) == 0
    ensures forall m :: 0 <= m < |regs| ==> !regs[m].InitialEnumerationComplete?
  {
    if regs != [] {
      var before := regs[..|regs| - 1];
      NoMarker(before);
      assert forall m :: 0 <= m < |before| ==> regs[m] == before[m];
    }
  }
}
