/**
  The watch loops of the two store sources, one iteration at a time. Each
  iteration reads the key's value from the store (blocking until it
  changes, or failing), fires the callback when the value differs from the
  one seen before, and hands its state to the next iteration. The
  recursion, the goroutine and the sleeping are not modelled; a run is a
  finite sequence of store answers.
 */
module Watch {
  import opened Wrappers
  import opened Text
  import opened Coerce
  import opened Remote

  /** A callback invocation: the key (in its slash form) and the new value. */
  datatype Notification = Notification(key: string, value: string)

  /** The key as the loop passes it on: every `.` turned into `/`. */
  function SlashKey(key: string): (r: string)
    ensures '.' !in r
  {
    ReplaceAllIdempotent(key, '.', '/');
    ReplaceAll(key, '.', '/')
  }

  /** The slash form is stable: the next iteration's replacement leaves it
      as it is, and it addresses the same store path as the original key. */
  lemma SlashKeyStable(ns: string, key: string)
    ensures SlashKey(SlashKey(key)) == SlashKey(key)
    ensures StorePath(ns, SlashKey(key)) == StorePath(ns, key)
  {
    ReplaceAllIdempotent(key, '.', '/');
  }

  // ---------------------------------------------------------------- etcd

  /** The etcd loop's state: the key, the value seen last, and the delay to
      sleep after the next failure, in milliseconds. */
  datatype EtcdState = EtcdState(key: string, previous: string, retryDelay: int)

  /** What `watcher.Next` gives: an error, or the node's value. */
  datatype EtcdEvent = WatchFailed | NodeValue(value: string)

  /** One iteration: the store path watched, the sleep taken, the callback
      fired, and the state handed on. */
  datatype EtcdStep = EtcdStep(watched: string, sleep: Option<int>, notify: Option<Notification>, next: EtcdState)

  /** `etcdConfigSource.Subscribe`: the loop starts with no value seen and
      the configured start delay. */
  function EtcdStart(cfg: EtcdConfig, key: string): (s: EtcdState)
    ensures s.previous == "" && s.retryDelay == cfg.startRetryDelay && s.key == key
  {
    EtcdState(key, "", cfg.startRetryDelay)
  }

  /** The next retry delay: doubled, but at most `max`. */
  function NextDelay(d: int, max: int): (r: int)
    ensures r <= max
    ensures r == max || r == 2 * d
    ensures 0 <= d && 2 * d <= max ==> r == 2 * d
  {
    if 2 * d > max then max else 2 * d
  }

  /** `etcdConfigSource.watch`, one iteration. On failure it sleeps for the
      current delay, forgets the value seen, and grows the delay as the code
      does, doubling in int64; on a value it notifies only a change,
      remembers the value and restarts from the start delay. */
  function EtcdStepOf(cfg: EtcdConfig, s: EtcdState, ev: EtcdEvent): (r: EtcdStep)
    ensures r.next.key == SlashKey(s.key)
    ensures r.watched == StorePath(cfg.path, s.key)
    ensures ev.WatchFailed? ==>
      r.notify.None? && r.sleep == Some(s.retryDelay)
      && r.next.previous == "" && r.next.retryDelay == NextDelayAsWritten(s.retryDelay, cfg.maxRetryDelay)
    ensures ev.NodeValue? ==>
      r.sleep.None? && r.next.previous == ev.value && r.next.retryDelay == cfg.startRetryDelay
      && (r.notify.Some? <==> ev.value != s.previous)
      && (r.notify.Some? ==> r.notify.value == Notification(SlashKey(s.key), ev.value))
  {
    var key := SlashKey(s.key);
    SlashKeyStable(cfg.path, s.key);
    match ev
    case WatchFailed =>
      EtcdStep(StorePath(cfg.path, key), Some(s.retryDelay), None,
        EtcdState(key, "", NextDelayAsWritten(s.retryDelay, cfg.maxRetryDelay)))
    case NodeValue(v) =>
      EtcdStep(StorePath(cfg.path, key), None,
        if v != s.previous then Some(Notification(key, v)) else None,
        EtcdState(key, v, cfg.startRetryDelay))
  }

  /** What a run of iterations produced: the last state, the callbacks
      fired and the sleeps taken, in order. */
  datatype EtcdTrace = EtcdTrace(final: EtcdState, notes: seq<Notification>, sleeps: seq<int>)

  function EtcdRun(cfg: EtcdConfig, s: EtcdState, evs: seq<EtcdEvent>): (t: EtcdTrace)
    ensures |t.notes| + |t.sleeps| <= |evs|
    decreases |evs|
  {
    if |evs| == 0 then EtcdTrace(s, [], [])
    else
      var st := EtcdStepOf(cfg, s, evs[0]);
      var rest := EtcdRun(cfg, st.next, evs[1..]);
      EtcdTrace(rest.final,
        (if st.notify.Some? then [st.notify.value] else []) + rest.notes,
        (if st.sleep.Some? then [st.sleep.value] else []) + rest.sleeps)
  }

  /** Every callback of a run reports the watched key in its slash form,
      and a run in which every watch delivers a value never sleeps and ends
      at the start delay. */
  lemma {:induction false} EtcdRunNotes(cfg: EtcdConfig, s: EtcdState, evs: seq<EtcdEvent>)
    ensures var t := EtcdRun(cfg, s, evs);
      forall i :: 0 <= i < |t.notes| ==> t.notes[i].key == SlashKey(s.key)
    ensures evs != [] && (forall i :: 0 <= i < |evs| ==> evs[i].NodeValue?) ==>
      EtcdRun(cfg, s, evs).sleeps == [] && EtcdRun(cfg, s, evs).final.retryDelay == cfg.startRetryDelay
    decreases |evs|
  {
    if |evs| > 0 {
      var st := EtcdStepOf(cfg, s, evs[0]);
      var rest := EtcdRun(cfg, st.next, evs[1..]);
      EtcdRunNotes(cfg, st.next, evs[1..]);
      SlashKeyStable(cfg.path, s.key);
      assert SlashKey(st.next.key) == SlashKey(s.key);
      var t := EtcdRun(cfg, s, evs);
      assert t.notes == (if st.notify.Some? then [st.notify.value] else []) + rest.notes;
      if forall i :: 0 <= i < |evs| ==> evs[i].NodeValue? {
        assert evs[0].NodeValue?;
        assert evs[1..] == [] || forall i :: 0 <= i < |evs[1..]| ==> evs[1..][i].NodeValue?;
      }
    }
  }

  function Failures(n: nat): (evs: seq<EtcdEvent>)
    ensures |evs| == n && forall i :: 0 <= i < n ==> evs[i] == WatchFailed
  {
    seq(n, i => WatchFailed)
  }

  function Pow2(n: nat): (p: nat)
    ensures p >= 1
  {
    if n == 0 then 1 else 2 * Pow2(n - 1)
  }

  function Min(a: int, b: int): int {
    if a <= b then a else b
  }

  /** Delays below 2^62 ms double without leaving the int64 range, so on
      them the loop's update is the intended capped doubling. */
  const DoublingBound: int := 0x4000_0000_0000_0000

  /** After `n` consecutive failures from delay `d`, the delay is `d`
      doubled `n` times, capped at the maximum; nothing was notified, and
      the value seen is forgotten. */
  lemma {:induction false} FailureRunDelay(cfg: EtcdConfig, s: EtcdState, n: nat)
    requires n >= 1
    requires 0 <= s.retryDelay < DoublingBound && 0 <= cfg.maxRetryDelay < DoublingBound
    ensures EtcdRun(cfg, s, Failures(n)).final.retryDelay == Min(s.retryDelay * Pow2(n), cfg.maxRetryDelay)
    ensures EtcdRun(cfg, s, Failures(n)).final.previous == ""
    ensures EtcdRun(cfg, s, Failures(n)).notes == []
    ensures |EtcdRun(cfg, s, Failures(n)).sleeps| == n
    decreases n
  {
    var next := FailureStep(cfg, s, n);
    if n > 1 {
      FailureRunDelay(cfg, next, n - 1);
      CappedDoubling(s.retryDelay, cfg.maxRetryDelay, n - 1);
    }
  }

  /** The first failure of a run: it sleeps the current delay, forgets the
      value and hands on the capped double. */
  lemma FailureStep(cfg: EtcdConfig, s: EtcdState, n: nat) returns (next: EtcdState)
    requires n >= 1
    requires 0 <= s.retryDelay < DoublingBound && 0 <= cfg.maxRetryDelay < DoublingBound
    ensures next.retryDelay == Min(2 * s.retryDelay, cfg.maxRetryDelay) && next.previous == ""
    ensures var rest := EtcdRun(cfg, next, Failures(n - 1));
      EtcdRun(cfg, s, Failures(n)) == EtcdTrace(rest.final, rest.notes, [s.retryDelay] + rest.sleeps)
  {
    next := EtcdStepOf(cfg, s, WatchFailed).next;
    assert Failures(n)[1..] == Failures(n - 1);
    AsWrittenAgreesWithoutOverflow(s.retryDelay, cfg.maxRetryDelay);
  }

  /** Capping once and doubling `k` more times with the cap is capping
      at the end. */
  lemma CappedDoubling(d: int, m: int, k: nat)
    requires 0 <= d && 0 <= m && k >= 1
    ensures Min(Min(2 * d, m) * Pow2(k), m) == Min(d * Pow2(k + 1), m)
  {
    var p := Pow2(k);
    assert Pow2(k + 1) == 2 * p;
    if 2 * d <= m {
      assert Min(2 * d, m) * p == d * (2 * p);
    } else {
      assert m * p >= m;
      assert d * (2 * p) >= 2 * d;
    }
  }

  /** Across a run of failures, every sleep after the first is at most the
      maximum, and the sleeps never shrink from the second one on; the
      first sleep is the start delay, uncapped. */
  lemma {:induction false} FailureRunSleeps(cfg: EtcdConfig, s: EtcdState, n: nat)
    requires 0 <= s.retryDelay < DoublingBound && 0 <= cfg.maxRetryDelay < DoublingBound
    ensures var sl := EtcdRun(cfg, s, Failures(n)).sleeps;
      && |sl| == n
      && (n > 0 ==> sl[0] == s.retryDelay)
      && (forall i :: 1 <= i < n ==> 0 <= sl[i] <= cfg.maxRetryDelay)
      && (forall i :: 0 <= i < n - 1 ==> sl[i] <= sl[i + 1] || (i == 0 && s.retryDelay > cfg.maxRetryDelay))
    decreases n
  {
    if n > 0 {
      var next := FailureStep(cfg, s, n);
      FailureRunSleeps(cfg, next, n - 1);
      SleepsCons(s.retryDelay, next.retryDelay, cfg.maxRetryDelay, EtcdRun(cfg, next, Failures(n - 1)).sleeps, n);
    }
  }

  /** The sleep shape of a failure run extends by one failure in front. */
  lemma SleepsCons(d: int, d1: int, m: int, rest: seq<int>, n: nat)
    requires n > 0 && 0 <= d && 0 <= m && d1 == Min(2 * d, m)
    requires && |rest| == n - 1
             && (n - 1 > 0 ==> rest[0] == d1)
             && (forall i :: 1 <= i < n - 1 ==> 0 <= rest[i] <= m)
             && (forall i :: 0 <= i < n - 2 ==> rest[i] <= rest[i + 1] || (i == 0 && d1 > m))
    ensures var sl := [d] + rest;
      && |sl| == n
      && sl[0] == d
      && (forall i :: 1 <= i < n ==> 0 <= sl[i] <= m)
      && (forall i :: 0 <= i < n - 1 ==> sl[i] <= sl[i + 1] || (i == 0 && d > m))
  {
  }

  /** A start delay above the maximum is slept once in full, and the next
      sleep is the maximum. */
  lemma StartAboveMaxShrinks(cfg: EtcdConfig, s: EtcdState)
    requires 0 <= cfg.maxRetryDelay < s.retryDelay < DoublingBound
    ensures EtcdRun(cfg, s, Failures(2)).sleeps == [s.retryDelay, cfg.maxRetryDelay]
  {
    assert Failures(2)[1..] == Failures(1);
    assert Failures(1)[1..] == [];
  }

  /** A start delay of 2^62 ms or more wraps on its first doubling: with
      start 2^62 + 1 and maximum 2^62 the second sleep is negative instead
      of the maximum. */
  lemma HugeStartWraps(cfg: EtcdConfig, s: EtcdState)
    requires s.retryDelay == DoublingBound + 1 && cfg.maxRetryDelay == DoublingBound
    ensures EtcdRun(cfg, s, Failures(2)).sleeps == [DoublingBound + 1, 2 - DoublingBound * 2]
  {
    assert Failures(2)[1..] == Failures(1);
    assert Failures(1)[1..] == [];
    assert NextDelayAsWritten(DoublingBound + 1, DoublingBound) == 2 - DoublingBound * 2;
  }

  /** Nothing checks the configured start delay: from -1 the delay keeps
      doubling downwards, so the sleeps shrink. */
  lemma NegativeStartShrinks(cfg: EtcdConfig, s: EtcdState)
    requires s.retryDelay == -1 && 0 <= cfg.maxRetryDelay
    ensures EtcdRun(cfg, s, Failures(3)).sleeps == [-1, -2, -4]
  {
    assert Failures(3)[1..] == Failures(2);
    assert Failures(2)[1..] == Failures(1);
    assert Failures(1)[1..] == [];
    assert NextDelayAsWritten(-1, cfg.maxRetryDelay) == -2;
    assert NextDelayAsWritten(-2, cfg.maxRetryDelay) == -4;
  }

  /** A value after a failure resets the delay to the start delay. */
  lemma SuccessResetsDelay(cfg: EtcdConfig, s: EtcdState, n: nat, v: string)
    ensures EtcdRun(cfg, s, Failures(n) + [NodeValue(v)]).final.retryDelay == cfg.startRetryDelay
    ensures EtcdRun(cfg, s, Failures(n) + [NodeValue(v)]).final.previous == v
  {
    FailuresThenValue(cfg, s, n, v);
  }

  lemma {:induction false} FailuresThenValue(cfg: EtcdConfig, s: EtcdState, n: nat, v: string)
    ensures EtcdRun(cfg, s, Failures(n) + [NodeValue(v)]).final
      == EtcdState(SlashKey(s.key), v, cfg.startRetryDelay)
    ensures n > 0 && v != "" ==>
      EtcdRun(cfg, s, Failures(n) + [NodeValue(v)]).notes == [Notification(SlashKey(s.key), v)]
    decreases n
  {
    var evs := Failures(n) + [NodeValue(v)];
    var st := EtcdStepOf(cfg, s, evs[0]);
    assert evs[1..] == if n == 0 then [] else Failures(n - 1) + [NodeValue(v)];
    if n > 0 {
      FailuresThenValue(cfg, st.next, n - 1, v);
      SlashKeyStable(cfg.path, s.key);
      if n == 1 {
        assert st.next.previous == "";
      }
    }
  }

  /** Unlike the consul loop, the etcd loop can deliver the same value
      twice in a row: a failure in between makes it forget the value. */
  lemma EtcdRedeliversAfterFailure(cfg: EtcdConfig, key: string, v: string)
    requires v != ""
    ensures var notes := EtcdRun(cfg, EtcdStart(cfg, key), [NodeValue(v), WatchFailed, NodeValue(v)]).notes;
      |notes| == 2 && notes[0].value == notes[1].value == v
  {
    var s := EtcdStart(cfg, key);
    var st := EtcdStepOf(cfg, s, NodeValue(v));
    assert [NodeValue(v), WatchFailed, NodeValue(v)][1..] == Failures(1) + [NodeValue(v)];
    FailuresThenValue(cfg, st.next, 1, v);
  }

  // ---------------------------------------------------------------- etcd delay overflow

  /** Go's signed 64-bit wrap-around. */
  function Wrap64(n: int): (r: int)
    ensures InInt64(r)
    ensures InInt64(n) ==> r == n
    ensures (r - n) % 0x1_0000_0000_0000_0000 == 0
  {
    (n - Int64Min) % 0x1_0000_0000_0000_0000 + Int64Min
  }

  /** The delay update as written: `retryDelay * 2` in int64, then capped. */
  function NextDelayAsWritten(d: int, max: int): (r: int)
    ensures r <= max
  {
    var n := Wrap64(d * 2);
    if n > max then max else n
  }

  /** Where doubling does not overflow, the update as written is the
      intended one. */
  lemma AsWrittenAgreesWithoutOverflow(d: int, max: int)
    requires InInt64(2 * d)
    ensures NextDelayAsWritten(d, max) == NextDelay(d, max)
  {
  }

  /** With a maximum near the top of the int64 range, doubling a delay of
      2^62 ms wraps to the most negative int64, which is below the cap and
      is kept; the next doubling wraps to 0, and from then on every retry
      comes immediately. The intended update stays at the maximum. */
  lemma DelayOverflow()
    ensures NextDelayAsWritten(0x4000_0000_0000_0000, Int64Max) == Int64Min
    ensures NextDelayAsWritten(Int64Min, Int64Max) == 0
    ensures NextDelayAsWritten(0, Int64Max) == 0
    ensures NextDelay(0x4000_0000_0000_0000, Int64Max) == Int64Max
    ensures NextDelay(Int64Max, Int64Max) == Int64Max
  {
  }

  /** The same overflow in the loop: from a delay of 2^62 ms with the
      maximum at the top of the int64 range, three failures sleep 2^62 ms,
      then a negative time, then none. */
  lemma DelayOverflowRun(cfg: EtcdConfig, s: EtcdState)
    requires s.retryDelay == DoublingBound && cfg.maxRetryDelay == Int64Max
    ensures EtcdRun(cfg, s, Failures(3)).sleeps == [DoublingBound, Int64Min, 0]
    ensures EtcdRun(cfg, s, Failures(3)).final.retryDelay == 0
  {
    assert Failures(3)[1..] == Failures(2);
    assert Failures(2)[1..] == Failures(1);
    assert Failures(1)[1..] == [];
    DelayOverflow();
  }

  /** The intended update keeps every delay of a run between the start
      delay and the maximum, so it never turns negative. */
  lemma NextDelayStaysInRange(d: int, max: int)
    requires 0 <= d <= max
    ensures d <= NextDelay(d, max) <= max
  {
  }

  // ---------------------------------------------------------------- consul

  /** The consul loop's state: the key, the value seen last, and the index
      to wait on (an unsigned 64-bit number that is only passed along). */
  datatype ConsulState = ConsulState(key: string, previous: string, waitIndex: nat)

  /** What a blocking `KV().Get` gives: a pair with the store's index, or no
      pair, with or without query metadata. A failed request gives no pair
      and no metadata. */
  datatype ConsulReply = Pair(value: string, lastIndex: nat) | NoPair(meta: Option<nat>)

  /** One iteration: the store path queried, the index waited on, the
      callback fired, and the state handed on. */
  datatype ConsulStep = ConsulStep(watched: string, waitedOn: nat, notify: Option<Notification>, next: ConsulState)

  /** `consulConfigSource.Subscribe`: no value seen, index 0. */
  function ConsulStart(key: string): (s: ConsulState)
    ensures s.previous == "" && s.waitIndex == 0 && s.key == key
  {
    ConsulState(key, "", 0)
  }

  /** `consulConfigSource.watch`, one iteration. A pair is notified when it
      differs from the value seen; a missing pair is notified as `""` when
      a value had been seen. There is no delay: a failure is a missing pair. */
  function ConsulStepOf(ns: string, s: ConsulState, reply: ConsulReply): (r: ConsulStep)
    ensures r.watched == StorePath(ns, s.key) && r.waitedOn == s.waitIndex
    ensures r.next.key == SlashKey(s.key)
    ensures reply.Pair? ==>
      r.next.previous == reply.value && r.next.waitIndex == reply.lastIndex
      && (r.notify.Some? <==> reply.value != s.previous)
      && (r.notify.Some? ==> r.notify.value == Notification(SlashKey(s.key), reply.value))
    ensures reply.NoPair? ==>
      r.next.previous == ""
      && r.next.waitIndex == (if reply.meta.Some? then reply.meta.value else 0)
      && (r.notify.Some? <==> s.previous != "")
      && (r.notify.Some? ==> r.notify.value == Notification(SlashKey(s.key), ""))
  {
    var key := SlashKey(s.key);
    SlashKeyStable(ns, s.key);
    match reply
    case Pair(v, idx) =>
      ConsulStep(StorePath(ns, key), s.waitIndex,
        if v != s.previous then Some(Notification(key, v)) else None,
        ConsulState(key, v, idx))
    case NoPair(meta) =>
      ConsulStep(StorePath(ns, key), s.waitIndex,
        if s.previous != "" then Some(Notification(key, "")) else None,
        ConsulState(key, "", if meta.Some? then meta.value else 0))
  }

  /** The state after a run of replies and the callbacks fired, in order. */
  datatype ConsulTrace = ConsulTrace(final: ConsulState, notes: seq<Notification>)

  function ConsulRun(ns: string, s: ConsulState, replies: seq<ConsulReply>): (t: ConsulTrace)
    ensures |t.notes| <= |replies|
    ensures replies != [] ==> t.final.key == SlashKey(s.key)
    decreases |replies|
  {
    if |replies| == 0 then ConsulTrace(s, [])
    else
      var before := ConsulRun(ns, s, replies[..|replies| - 1]);
      var st := ConsulStepOf(ns, before.final, replies[|replies| - 1]);
      ConsulTrace(st.next, before.notes + if st.notify.Some? then [st.notify.value] else [])
  }

  /** The value seen last is the last value notified (or the initial one
      when nothing was notified), every notification differs from the one
      before it, and the first differs from the initial value. */
  lemma {:induction false} ConsulNotesChange(ns: string, s: ConsulState, replies: seq<ConsulReply>)
    ensures var t := ConsulRun(ns, s, replies);
      && t.final.previous == (if |t.notes| == 0 then s.previous else t.notes[|t.notes| - 1].value)
      && (|t.notes| > 0 ==> t.notes[0].value != s.previous)
      && (forall i :: 0 <= i < |t.notes| - 1 ==> t.notes[i].value != t.notes[i + 1].value)
    decreases |replies|
  {
    if |replies| > 0 {
      var init := replies[..|replies| - 1];
      ConsulNotesChange(ns, s, init);
      var before := ConsulRun(ns, s, init);
      var st := ConsulStepOf(ns, before.final, replies[|replies| - 1]);
      ConsulStepRemembers(ns, before.final, replies[|replies| - 1]);
      var t := ConsulRun(ns, s, replies);
      assert t.final == st.next;
      if st.notify.Some? {
        assert t.notes == before.notes + [st.notify.value];
      } else {
        assert t.notes == before.notes;
      }
    }
  }

  /** One iteration remembers what it notifies, which always differs from
      what it had seen; when it notifies nothing, the value seen stays. */
  lemma ConsulStepRemembers(ns: string, s: ConsulState, reply: ConsulReply)
    ensures var st := ConsulStepOf(ns, s, reply);
      && (st.notify.Some? ==> st.notify.value.value == st.next.previous != s.previous)
      && (st.notify.None? ==> st.next.previous == s.previous)
  {
  }

  /** From `Subscribe`'s start, the first callback never reports `""`, and
      no two consecutive callbacks report the same value. */
  lemma ConsulNotesFromStart(ns: string, key: string, replies: seq<ConsulReply>)
    ensures var notes := ConsulRun(ns, ConsulStart(key), replies).notes;
      && (|notes| > 0 ==> notes[0].value != "")
      && (forall i :: 0 <= i < |notes| - 1 ==> notes[i].value != notes[i + 1].value)
  {
    ConsulNotesChange(ns, ConsulStart(key), replies);
  }

  /** A failed request while a value was seen reports the removal once,
      waits on index 0 next, and a second failure reports nothing. */
  lemma ConsulFailureIsRemoval(ns: string, s: ConsulState)
    requires s.previous != ""
    ensures var t := ConsulRun(ns, s, [NoPair(None), NoPair(None)]);
      t.notes == [Notification(SlashKey(s.key), "")] && t.final.waitIndex == 0
  {
    var r := [NoPair(None), NoPair(None)];
    assert r[..1] == [NoPair(None)];
    assert r[..1][..0] == [];
    SlashKeyStable(ns, s.key);
  }
}
