/** Deadline-driven freshness notifications of the vehicle telemetry service. */
module Notifications {
  import opened Pixels

  datatype Optional<+T> = Absent | Present(value: T)

  /** The latest observation of a signal and how long it stays fresh. */
  datatype Signal = Signal(hasValue: bool, lastUpdate: uint64, timeout: Optional<uint64>)

  /** One notification channel; only catalogued ones are scheduled by deadline. */
  datatype Descriptor = Descriptor(identifier: uint32, catalogued: bool, signal: nat)

  datatype Lifecycle = Stopped | Running | Stopping | Faulted

  /** One published reading: `stale` says that its observation was past its deadline. */
  datatype Publication = Publication(descriptor: nat, observation: uint64, stale: bool)

  function SaturatingAdd(value: uint64, delta: uint64): (r: uint64)
    ensures r as int == if value as int + delta as int <= 0xFFFF_FFFF_FFFF_FFFF then value as int + delta as int
                        else 0xFFFF_FFFF_FFFF_FFFF
  {
    if value > 0xFFFF_FFFF_FFFF_FFFF - delta then 0xFFFF_FFFF_FFFF_FFFF else value + delta
  }

  /** A reading is fresh up to and including its deadline. */
  predicate PastDeadline(signal: Signal, now: uint64) {
    signal.hasValue && signal.timeout.Present? && now > SaturatingAdd(signal.lastUpdate, signal.timeout.value)
  }

  /** Clamping the sum to the clock changes no verdict. */
  lemma DeadlineIsExact(signal: Signal, now: uint64)
    ensures PastDeadline(signal, now) <==>
            signal.hasValue && signal.timeout.Present? &&
            now as int > signal.lastUpdate as int + signal.timeout.value as int
  {
  }

  predicate Due(descriptor: Descriptor, signal: Signal, serviced: Optional<uint64>, now: uint64) {
    descriptor.catalogued && PastDeadline(signal, now) && serviced != Present(signal.lastUpdate)
  }

  /** Signals only ever receive newer observations, and keep their freshness timeout. */
  predicate Advances(before: seq<Signal>, after: seq<Signal>) {
    |before| == |after| && forall i :: 0 <= i < |before| ==> AdvancesAt(before[i], after[i])
  }

  predicate AdvancesAt(before: Signal, after: Signal) {
    after == before ||
    (after.timeout == before.timeout && after.hasValue && (before.hasValue ==> before.lastUpdate <= after.lastUpdate))
  }

  class Scheduler {
    const descriptors: seq<Descriptor>
    var signals: seq<Signal>
    const serviced: array<Optional<uint64>>
    var pending: Optional<uint32>
    var lifecycle: Lifecycle
    ghost var published: seq<Publication>
    /** The due observations recorded since the observations were last cleared, as (descriptor, observation). */
    ghost var recorded: seq<(nat, uint64)>

    /**
      Every serviced observation is one the signal really had, and was published
      as stale; no observation of a descriptor was recorded as due twice.
     */
    ghost predicate Valid()
      reads this`signals, this`published, this`recorded, serviced
    {
      && serviced.Length == |descriptors|
      && (forall i :: 0 <= i < |descriptors| ==> descriptors[i].signal < |signals|)
      && (forall i :: 0 <= i < |descriptors| ==> ServicedWasPublished(i))
      && (forall k :: 0 <= k < |recorded| ==> RecordedWasServiced(k))
      && (forall j, k :: 0 <= j < k < |recorded| ==> recorded[j] != recorded[k])
    }

    /** A recorded observation is the serviced one of its descriptor, or an older one. */
    ghost predicate RecordedWasServiced(k: nat)
      reads this`recorded, serviced
    {
      k < |recorded| && recorded[k].0 < serviced.Length &&
      serviced[recorded[k].0].Present? && recorded[k].1 <= serviced[recorded[k].0].value
    }

    ghost predicate ServicedWasPublished(i: nat)
      reads this`signals, this`published, serviced
    {
      i < |descriptors| == serviced.Length && descriptors[i].signal < |signals| &&
      (serviced[i].Present? ==>
        && Publication(i, serviced[i].value, true) in published
        && signals[descriptors[i].signal].hasValue
        && serviced[i].value <= signals[descriptors[i].signal].lastUpdate)
    }

    function SignalOf(i: nat): Signal
      requires i < |descriptors| && descriptors[i].signal < |signals|
      reads this`signals
    {
      signals[descriptors[i].signal]
    }

    predicate DueAt(i: nat, now: uint64)
      reads this`signals, serviced
    {
      i < |descriptors| == serviced.Length && descriptors[i].signal < |signals| &&
      Due(descriptors[i], SignalOf(i), serviced[i], now)
    }

    ghost predicate GroupDue(identifier: uint32, now: uint64)
      requires Valid()
      reads this`signals, this`published, this`recorded, serviced
    {
      exists j :: 0 <= j < |descriptors| && descriptors[j].identifier == identifier && DueAt(j, now)
    }

    /** A descriptor is published when everything is, its message arrived, or any of its message group is due. */
    ghost predicate Selected(i: nat, now: uint64, affected: Optional<uint32>, global: bool)
      requires Valid() && i < |descriptors|
      reads this`signals, this`published, this`recorded, serviced
    {
      global || affected == Present(descriptors[i].identifier) || GroupDue(descriptors[i].identifier, now)
    }

    /** The publications of one pass over the first `n` descriptors, in descriptor order. */
    ghost function Publications(n: nat, now: uint64, affected: Optional<uint32>, global: bool): seq<Publication>
      requires Valid() && n <= |descriptors|
      reads this`signals, this`published, this`recorded, serviced
    {
      if n == 0 then []
      else if Selected(n - 1, now, affected, global) then
        Publications(n - 1, now, affected, global) +
        [Publication(n - 1, SignalOf(n - 1).lastUpdate, PastDeadline(SignalOf(n - 1), now))]
      else Publications(n - 1, now, affected, global)
    }

    /** The due observations of the first `n` descriptors, in descriptor order. */
    ghost function DuePairs(n: nat, now: uint64): seq<(nat, uint64)>
      requires Valid() && n <= |descriptors|
      reads this`signals, this`published, this`recorded, serviced
    {
      if n == 0 then []
      else DuePairs(n - 1, now) + (if DueAt(n - 1, now) then [(n - 1, SignalOf(n - 1).lastUpdate)] else [])
    }

    /** An observation that was recorded as due is never due again, at any time: every due one is new. */
    lemma ServicedOnce(i: nat, now: uint64)
      requires Valid() && DueAt(i, now)
      ensures (i, SignalOf(i).lastUpdate) !in recorded
    {
      assert ServicedWasPublished(i);
      forall k | 0 <= k < |recorded|
        ensures recorded[k] != (i, SignalOf(i).lastUpdate)
      {
        assert RecordedWasServiced(k);
      }
    }

    constructor (table: seq<Descriptor>, initial: seq<Signal>)
      requires forall i :: 0 <= i < |table| ==> table[i].signal < |initial|
      ensures Valid() && descriptors == table && signals == initial && published == [] && recorded == [] && fresh(serviced)
      ensures pending == Absent && lifecycle == Stopped
    {
      descriptors := table;
      signals := initial;
      serviced := new Optional<uint64>[|table|](_ => Absent);
      pending := Absent;
      lifecycle := Stopped;
      published, recorded := [], [];
    }

    /** Forgets every observation and every servicing; the freshness policy is applied anew. */
    method Reset(policy: seq<Optional<uint64>>)
      requires Valid() && |policy| == |signals|
      modifies this`signals, this`pending, this`recorded, serviced
      ensures Valid() && recorded == [] && pending == Absent
      ensures |signals| == |policy| && forall i :: 0 <= i < |signals| ==> signals[i] == Signal(false, 0, policy[i])
      ensures forall i :: 0 <= i < |descriptors| ==> serviced[i] == Absent
    {
      for i := 0 to serviced.Length
        invariant forall k :: 0 <= k < i ==> serviced[k] == Absent
      {
        serviced[i] := Absent;
      }
      signals := seq(|policy|, i requires 0 <= i < |policy| => Signal(false, 0, policy[i]));
      pending, recorded := Absent, [];
    }

    /** Starts a stopped service with nothing observed and nothing serviced; `outcome` is where starting ends. */
    method Start(policy: seq<Optional<uint64>>, outcome: Lifecycle) returns (ok: bool)
      requires Valid() && |policy| == |signals|
      modifies this`signals, this`pending, this`recorded, this`lifecycle, serviced
      ensures Valid() && (ok <==> old(lifecycle).Stopped?)
      ensures lifecycle == if ok then outcome else old(lifecycle)
      ensures ok ==> recorded == [] && forall i, now :: 0 <= i < |descriptors| ==> !DueAt(i, now)
      ensures !ok ==> recorded == old(recorded) && signals == old(signals) && serviced[..] == old(serviced[..])
    {
      if !lifecycle.Stopped? {
        return false;
      }
      Reset(policy);
      lifecycle := outcome;
      return true;
    }

    /** Stops the service: no pass publishes any more, and a completed stop forgets every observation. */
    method Stop(timedOut: bool, failed: bool) returns (ok: bool)
      requires Valid()
      modifies this`signals, this`pending, this`recorded, this`lifecycle, serviced
      ensures Valid() && !lifecycle.Running?
      ensures ok <==> !old(lifecycle).Stopped? && !timedOut && !failed
      ensures lifecycle == if old(lifecycle).Stopped? then Stopped else if timedOut then Stopping
                           else if failed then Faulted else Stopped
      ensures ok ==> recorded == [] && forall i, now :: 0 <= i < |descriptors| ==> !DueAt(i, now)
      ensures !ok ==> recorded == old(recorded) && signals == old(signals) && serviced[..] == old(serviced[..])
    {
      if lifecycle.Stopped? {
        return false;
      }
      lifecycle := Stopping;
      if timedOut {
        return false;
      }
      if failed {
        lifecycle := Faulted;
        return false;
      }
      Reset(seq(|signals|, _ => Absent));
      lifecycle := Stopped;
      return true;
    }

    /** A diagnostics callback reports the runtime's lifecycle. */
    method ObserveLifecycle(reported: Lifecycle)
      requires Valid()
      modifies this`lifecycle
      ensures Valid() && lifecycle == reported
    {
      lifecycle := reported;
    }

    /** The message groups with a due descriptor, each once; the fixed array never overflows. */
    method DueIdentifiers(now: uint64) returns (identifiers: array<uint32>, count: nat)
      requires Valid()
      ensures fresh(identifiers) && count <= identifiers.Length == |descriptors|
      ensures forall identifier :: identifier in identifiers[..count] <==> GroupDue(identifier, now)
    {
      identifiers := new uint32[|descriptors|](_ => 0);
      count := 0;
      var index := 0;
      while index < |descriptors|
        invariant index <= |descriptors| && count <= index
        invariant forall identifier :: identifier in identifiers[..count] <==>
                    exists j :: 0 <= j < index && descriptors[j].identifier == identifier && DueAt(j, now)
      {
        var identifier := descriptors[index].identifier;
        if DueAt(index, now) && identifier !in identifiers[..count] {
          ghost var before := identifiers[..count];
          identifiers[count] := identifier;
          count := count + 1;
          assert identifiers[..count] == before + [identifier];
        }
        index := index + 1;
      }
    }

    /** Publishes one descriptor and records its observation if it is due. */
    method PublishDescriptor(index: nat, now: uint64)
      requires Valid() && index < |descriptors|
      modifies this`published, this`recorded, serviced
      ensures Valid()
      ensures recorded == old(recorded) + (if old(DueAt(index, now)) then [(index, SignalOf(index).lastUpdate)] else [])
      ensures published == old(published) + [Publication(index, SignalOf(index).lastUpdate, PastDeadline(SignalOf(index), now))]
      ensures forall i :: 0 <= i < |descriptors| ==>
                serviced[i] == if i == index && old(DueAt(i, now)) then Present(SignalOf(i).lastUpdate) else old(serviced[i])
    {
      if DueAt(index, now) {
        ServicedOnce(index, now);
        assert ServicedWasPublished(index);
      }
      ghost var reading := Publication(index, SignalOf(index).lastUpdate, PastDeadline(SignalOf(index), now));
      published := published + [reading];
      assert published[|old(published)|] == reading;
      if DueAt(index, now) {
        serviced[index] := Present(SignalOf(index).lastUpdate);
        recorded := recorded + [(index, SignalOf(index).lastUpdate)];
      }
      forall i | 0 <= i < |descriptors|
        ensures ServicedWasPublished(i)
      {
        assert old(ServicedWasPublished(i));
      }
      forall k | 0 <= k < |recorded|
        ensures RecordedWasServiced(k)
      {
        assert k < |old(recorded)| ==> old(RecordedWasServiced(k));
      }
    }

    /** Publishes a selected descriptor; nothing due is left out of the selection. */
    method Visit(index: nat, now: uint64, selected: bool)
      requires Valid() && index < |descriptors| && (DueAt(index, now) ==> selected)
      modifies this`published, this`recorded, serviced
      ensures Valid()
      ensures recorded == old(recorded) + (if old(DueAt(index, now)) then [(index, SignalOf(index).lastUpdate)] else [])
      ensures published == old(published) +
                (if selected then [Publication(index, SignalOf(index).lastUpdate, PastDeadline(SignalOf(index), now))] else [])
      ensures forall i :: 0 <= i < |descriptors| ==>
                serviced[i] == if i == index && old(DueAt(i, now)) then Present(SignalOf(i).lastUpdate) else old(serviced[i])
    {
      if selected {
        PublishDescriptor(index, now);
      }
    }

    /** One pass: publishes the selected descriptors and records every due observation among them. */
    method PublishNotifications(now: uint64, affected: Optional<uint32>, global: bool) returns (evaluations: nat)
      requires Valid()
      modifies this`published, this`recorded, serviced
      ensures Valid()
      ensures published == old(published) + old(Publications(|descriptors|, now, affected, global))
      ensures recorded == old(recorded) + old(DuePairs(|descriptors|, now))
      ensures forall i :: 0 <= i < |descriptors| ==>
                serviced[i] == if old(DueAt(i, now)) then Present(SignalOf(i).lastUpdate) else old(serviced[i])
      ensures forall i :: 0 <= i < |descriptors| ==> !DueAt(i, now)
    {
      var identifiers, count := DueIdentifiers(now);
      evaluations := 0;
      var index := 0;
      while index < |descriptors|
        invariant index <= |descriptors| && Valid()
        invariant forall i :: 0 <= i < |descriptors| ==>
                    serviced[i] == if i < index && old(DueAt(i, now)) then Present(SignalOf(i).lastUpdate)
                                   else old(serviced[i])
        invariant forall identifier :: identifier in identifiers[..count] <==> old(GroupDue(identifier, now))
        invariant published == old(published) + old(Publications(index, now, affected, global))
        invariant recorded == old(recorded) + old(DuePairs(index, now))
      {
        var descriptor := descriptors[index];
        var due := descriptor.identifier in identifiers[..count];
        var selected := global || affected == Present(descriptor.identifier) || due;
        assert selected == old(Selected(index, now, affected, global));
        assert DueAt(index, now) == old(DueAt(index, now));
        Visit(index, now, selected);
        if selected && descriptor.catalogued {
          evaluations := evaluations + 1;
        }
        index := index + 1;
      }
    }

    /** The freshness pass: only while running, and only for due message groups. */
    method ServiceDueNotifications(now: uint64)
      requires Valid()
      modifies this`published, this`recorded, serviced
      ensures Valid()
      ensures !lifecycle.Running? ==> published == old(published) && serviced[..] == old(serviced[..]) && recorded == old(recorded)
      ensures lifecycle.Running? ==> recorded == old(recorded) + old(DuePairs(|descriptors|, now))
      ensures lifecycle.Running? ==> published == old(published) + old(Publications(|descriptors|, now, Absent, false))
      ensures lifecycle.Running? ==> forall i :: 0 <= i < |descriptors| ==>
                serviced[i] == if old(DueAt(i, now)) then Present(SignalOf(i).lastUpdate) else old(serviced[i])
    {
      if !lifecycle.Running? {
        return;
      }
      var _ := PublishNotifications(now, Absent, false);
    }

    /**
      Handles one frame: freshness is serviced before the decoded signals
      replace the old ones, so no staleness is overwritten unpublished.
     */
    method Process(identifier: uint32, now: uint64, decoded: seq<Signal>)
      requires Valid() && Advances(signals, decoded)
      modifies this`published, this`recorded, this`signals, this`pending, serviced
      ensures Valid() && signals == decoded && pending == Present(identifier)
      ensures recorded == old(recorded) + (if lifecycle.Running? then old(DuePairs(|descriptors|, now)) else [])
      ensures forall i :: 0 <= i < |descriptors| ==>
                serviced[i] == if lifecycle.Running? && old(DueAt(i, now)) then Present(old(SignalOf(i)).lastUpdate) else old(serviced[i])
      ensures old(published) <= published
      ensures lifecycle.Running? ==> forall i :: 0 <= i < |descriptors| ==>
                descriptors[i].catalogued && PastDeadline(old(signals)[descriptors[i].signal], now) ==>
                  Publication(i, old(signals)[descriptors[i].signal].lastUpdate, true) in published
    {
      pending := Present(identifier);
      ServiceDueNotifications(now);
      forall i | 0 <= i < |descriptors| && lifecycle.Running? && descriptors[i].catalogued && PastDeadline(SignalOf(i), now)
        ensures Publication(i, SignalOf(i).lastUpdate, true) in published
      {
        assert ServicedWasPublished(i);
      }
      label decode:
      signals := decoded;
      forall i | 0 <= i < |descriptors|
        ensures ServicedWasPublished(i)
      {
        assert old@decode(ServicedWasPublished(i));
        assert AdvancesAt(old(signals)[descriptors[i].signal], decoded[descriptors[i].signal]);
      }
    }

    /** Publishes the message group of the frame just processed, and everything on a health transition. */
    method PublishCurrent(now: uint64, global: bool)
      requires Valid()
      modifies this`published, this`recorded, this`pending, serviced
      ensures Valid() && pending == Absent
      ensures recorded == old(recorded) + old(DuePairs(|descriptors|, now))
      ensures forall i :: 0 <= i < |descriptors| ==>
                serviced[i] == if old(DueAt(i, now)) then Present(SignalOf(i).lastUpdate) else old(serviced[i])
      ensures published == old(published) + old(Publications(|descriptors|, now, pending, global))
      ensures forall i :: 0 <= i < |descriptors| ==> !DueAt(i, now)
    {
      var _ := PublishNotifications(now, pending, global);
      pending := Absent;
    }

    /**
      Since a pass serviced a descriptor: it is due again exactly when its
      observation was replaced and the replacement is past its deadline.
     */
    twostate lemma DueAgain(i: nat, later: uint64)
      requires old(Valid()) && Valid() && i < |descriptors|
      requires old(serviced[i]) == Present(old(SignalOf(i)).lastUpdate) == serviced[i]
      requires AdvancesAt(old(SignalOf(i)), SignalOf(i))
      ensures DueAt(i, later) <==>
              descriptors[i].catalogued && SignalOf(i) != old(SignalOf(i)) && PastDeadline(SignalOf(i), later)
    {
      assert old(ServicedWasPublished(i));
    }
  }
}
