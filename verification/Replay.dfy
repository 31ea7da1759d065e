/** The nonce store of src/security/replay.rs and the bounded request-id window of
    src/compat/request_replay.rs. */
module NonceSpec {
  import opened Bits
  import opened Errors

  const CLOCK_SKEW := 60

  datatype SecurityError = ExpiredTimestamp | ReplayAttack | CapacityExceeded
                         | InvalidSignature | ArgsHashMismatch | InsufficientCapabilities | ArgumentsRefused

  datatype Store = Store(nonces: map<nat, nat>, maxNonces: nat, expirationSecs: nat)

  predicate IsExpired(s: Store, timestamp: nat, now: nat) {
    if timestamp > now then timestamp > now + CLOCK_SKEW else now - timestamp > s.expirationSecs
  }

  function Cleaned(s: Store, now: nat): Store {
    s.(nonces := map n | n in s.nonces && Max(now - s.nonces[n], 0) <= s.expirationSecs :: s.nonces[n])
  }

  /** The clock is read once for the timestamp and again if the store must be cleaned. */
  function Check(s: Store, nonce: nat, timestamp: nat, now: nat, later: nat): (Store, Result<(), SecurityError>) {
    if IsExpired(s, timestamp, now) then (s, Err(ExpiredTimestamp))
    else if nonce in s.nonces then (s, Err(ReplayAttack))
    else
      var s' := if |s.nonces| >= s.maxNonces then Cleaned(s, later) else s;
      if |s'.nonces| >= s.maxNonces then (s', Err(CapacityExceeded))
      else (s'.(nonces := s'.nonces[nonce := timestamp]), Ok(()))
  }

  /** A timestamp that is neither too far ahead of the clock nor past its lifetime. */
  predicate InTime(s: Store, timestamp: nat, now: nat) {
    timestamp <= now + 60 && now <= timestamp + s.expirationSecs
  }

  /** The remembered nonces that have not outlived their lifetime at `clock`. */
  function Unexpired(s: Store, clock: nat): set<nat> {
    set n | n in s.nonces && clock <= s.nonces[n] + s.expirationSecs
  }

  /** Exactly when a nonce is accepted: in time, unknown, and fewer than the limit would be left by a cleanup; a full
      store is cleaned before it refuses. */
  lemma CheckIsExact(s: Store, nonce: nat, timestamp: nat, now: nat, later: nat)
    ensures var r := Check(s, nonce, timestamp, now, later).1;
      && (r.Ok? <==> InTime(s, timestamp, now) && nonce !in s.nonces && |Unexpired(s, later)| < s.maxNonces)
      && (r == Err(ExpiredTimestamp) <==> !InTime(s, timestamp, now))
      && (r == Err(ReplayAttack) <==> InTime(s, timestamp, now) && nonce in s.nonces)
      && (r.Err? ==> r.error in {ExpiredTimestamp, ReplayAttack, CapacityExceeded})
  {
    assert Cleaned(s, later).nonces.Keys == Unexpired(s, later);
    SubsetSize(Unexpired(s, later), s.nonces.Keys);
  }

  /** An accepted nonce is remembered under its timestamp; of the others nothing changes, except that a full store
      forgets those past their lifetime. */
  lemma CheckRemembers(s: Store, nonce: nat, timestamp: nat, now: nat, later: nat, n: nat)
    ensures var (s', r) := Check(s, nonce, timestamp, now, later);
      && (r.Ok? ==> nonce in s'.nonces && s'.nonces[nonce] == timestamp)
      && (n != nonce || r.Err? ==> (n in s'.nonces ==> n in s.nonces && s'.nonces[n] == s.nonces[n]))
      && (n in s.nonces && n !in s'.nonces ==> |s.nonces| >= s.maxNonces && n !in Unexpired(s, later))
  {
  }

  lemma CleanedKeepsUnexpired(s: Store, clock: nat)
    ensures Cleaned(s, clock).nonces.Keys == Unexpired(s, clock)
    ensures forall n :: n in Unexpired(s, clock) ==> Cleaned(s, clock).nonces[n] == s.nonces[n]
  {
  }

  datatype Call = CheckNonce(nonce: nat, timestamp: nat, now: nat, later: nat) | Cleanup(now: nat)

  /** The store, the latest clock any cleanup has read, and the accepted pairs in order. */
  datatype Trace = Trace(store: Store, cleanedAt: nat, accepted: seq<(nat, nat)>)

  /** No check reads an earlier clock than a cleanup before it; nothing else is asked of the clock. */
  predicate NotBeforeCleanup(t: Trace, c: Call) {
    c.CheckNonce? ==> t.cleanedAt <= c.now
  }

  /** Whether the check must clean the store. */
  predicate Cleans(s: Store, nonce: nat, timestamp: nat, now: nat) {
    !IsExpired(s, timestamp, now) && nonce !in s.nonces && |s.nonces| >= s.maxNonces
  }

  function After(t: Trace, c: Call): Trace {
    match c
    case CheckNonce(nonce, timestamp, now, later) =>
      var (s, r) := Check(t.store, nonce, timestamp, now, later);
      Trace(s, if Cleans(t.store, nonce, timestamp, now) then Max(t.cleanedAt, later) else t.cleanedAt,
            if r.Ok? then t.accepted + [(nonce, timestamp)] else t.accepted)
    case Cleanup(now) => Trace(Cleaned(t.store, now), Max(t.cleanedAt, now), t.accepted)
  }

  predicate ValidRun(t: Trace, calls: seq<Call>)
    decreases |calls|
  {
    calls == [] || (NotBeforeCleanup(t, calls[0]) && ValidRun(After(t, calls[0]), calls[1..]))
  }

  function Run(t: Trace, calls: seq<Call>): Trace
    decreases |calls|
  {
    if calls == [] then t else Run(After(t, calls[0]), calls[1..])
  }

  function Start(maxNonces: nat, expirationSecs: nat): Trace {
    Trace(Store(map[], maxNonces, expirationSecs), 0, [])
  }

  /** Expired at the clock and at every later one. */
  predicate GoneForGood(s: Store, timestamp: nat, clock: nat) {
    timestamp <= clock && clock - timestamp > s.expirationSecs
  }

  /** An accepted pair is either still recorded under its own timestamp or expired for good. */
  predicate Remembered(t: Trace, pair: (nat, nat)) {
    (pair.0 in t.store.nonces && t.store.nonces[pair.0] == pair.1) || GoneForGood(t.store, pair.1, t.cleanedAt)
  }

  predicate Inv(t: Trace) {
    && |t.store.nonces| <= t.store.maxNonces
    && (forall i :: 0 <= i < |t.accepted| ==> Remembered(t, t.accepted[i]))
    && (forall i, j :: 0 <= i < j < |t.accepted| ==> t.accepted[i] != t.accepted[j])
  }

  lemma CleanedIsSubset(s: Store, now: nat)
    ensures |Cleaned(s, now).nonces| <= |s.nonces|
  {
    SubsetSize(Cleaned(s, now).nonces.Keys, s.nonces.Keys);
  }

  lemma {:induction false} SubsetSize(a: set<nat>, b: set<nat>)
    requires a <= b
    ensures |a| <= |b|
    decreases |a|
  {
    if a != {} {
      var x :| x in a;
      SubsetSize(a - {x}, b - {x});
    }
  }

  lemma CallKeepsInv(t: Trace, c: Call)
    requires Inv(t) && NotBeforeCleanup(t, c)
    ensures Inv(After(t, c)) && After(t, c).store.maxNonces == t.store.maxNonces
  {
    match c
    case Cleanup(now) => CleanedIsSubset(t.store, now);
    case CheckNonce(nonce, timestamp, now, later) =>
      CleanedIsSubset(t.store, later);
      var t' := After(t, c);
      forall i | 0 <= i < |t.accepted| ensures Remembered(t', t.accepted[i]) {
        assert Remembered(t, t.accepted[i]);
      }
      if t'.accepted != t.accepted {
        forall i | 0 <= i < |t.accepted| ensures t.accepted[i] != (nonce, timestamp) {
          assert Remembered(t, t.accepted[i]);
        }
      }
  }

  lemma {:induction false} RunKeepsInv(t: Trace, calls: seq<Call>)
    requires Inv(t) && ValidRun(t, calls)
    ensures Inv(Run(t, calls)) && Run(t, calls).store.maxNonces == t.store.maxNonces
    decreases |calls|
  {
    if calls != [] {
      CallKeepsInv(t, calls[0]);
      RunKeepsInv(After(t, calls[0]), calls[1..]);
    }
  }

  /** If no check reads an earlier clock than a cleanup before it, no pair is ever accepted twice, whatever has been
      evicted in between, and the store never exceeds its capacity. */
  lemma {:induction false} NoReplayIsAccepted(maxNonces: nat, expirationSecs: nat, calls: seq<Call>)
    requires ValidRun(Start(maxNonces, expirationSecs), calls)
    ensures var t := Run(Start(maxNonces, expirationSecs), calls);
      && |t.store.nonces| <= maxNonces
      && forall i, j :: 0 <= i < j < |t.accepted| ==> t.accepted[i] != t.accepted[j]
  {
    RunKeepsInv(Start(maxNonces, expirationSecs), calls);
  }

  /** A check, a cleanup, and the same check again with the clock it read the first time. */
  function CheckedAgain(nonce: nat, timestamp: nat, now: nat, cleanup: nat): seq<Call> {
    [CheckNonce(nonce, timestamp, now, now), Cleanup(cleanup), CheckNonce(nonce, timestamp, now, now)]
  }

  /** The clock assumption is needed: set back behind a cleanup, the clock lets some pair in twice, exactly when the
      cleanup read a later clock than the checks and one later than the lifetime of a nonce. */
  lemma ClockSetBackAdmitsReplay(nonce: nat, now: nat, cleanup: nat, maxNonces: nat, expirationSecs: nat)
    requires maxNonces > 0
    ensures (exists timestamp: nat ::
              Run(Start(maxNonces, expirationSecs), CheckedAgain(nonce, timestamp, now, cleanup)).accepted
              == [(nonce, timestamp), (nonce, timestamp)])
       <==> now < cleanup && expirationSecs < cleanup
  {
    hide Run;
    forall timestamp: nat
      ensures Run(Start(maxNonces, expirationSecs), CheckedAgain(nonce, timestamp, now, cleanup)).accepted
              == [(nonce, timestamp), (nonce, timestamp)]
         <==> !Stale(expirationSecs, timestamp, now) && Max(cleanup - timestamp, 0) > expirationSecs
    {
      CheckedAgainAccepts(nonce, timestamp, now, cleanup, maxNonces, expirationSecs);
    }
    if now < cleanup && expirationSecs < cleanup {
      var oldest := Max(now - expirationSecs, 0);
      assert !Stale(expirationSecs, oldest, now) && Max(cleanup - oldest, 0) > expirationSecs;
    }
  }

  predicate Stale(expirationSecs: nat, timestamp: nat, now: nat) {
    IsExpired(Store(map[], 0, expirationSecs), timestamp, now)
  }

  /** Which timestamps come in twice: those in their lifetime at the checks and past it at the cleanup. */
  lemma CheckedAgainAccepts(nonce: nat, timestamp: nat, now: nat, cleanup: nat, maxNonces: nat, expirationSecs: nat)
    requires maxNonces > 0
    ensures Run(Start(maxNonces, expirationSecs), CheckedAgain(nonce, timestamp, now, cleanup)).accepted
              == [(nonce, timestamp), (nonce, timestamp)]
       <==> !Stale(expirationSecs, timestamp, now) && Max(cleanup - timestamp, 0) > expirationSecs
  {
    var t0, calls := Start(maxNonces, expirationSecs), CheckedAgain(nonce, timestamp, now, cleanup);
    RunThree(t0, calls);
    var t1 := After(t0, calls[0]);
    var t2 := After(t1, calls[1]);
    hide Run;
    var fits, outlived := !Stale(expirationSecs, timestamp, now), Max(cleanup - timestamp, 0) > expirationSecs;
    assert t1.store.nonces == if fits then map[nonce := timestamp] else map[];
    assert t1.accepted == if fits then [(nonce, timestamp)] else [];
    assert t2.store.nonces == if fits && !outlived then map[nonce := timestamp] else map[];
    assert |After(t2, calls[2]).accepted| == (if fits then 1 else 0) + (if fits && outlived then 1 else 0);
  }

  lemma {:induction false} RunThree(t: Trace, calls: seq<Call>)
    requires |calls| == 3
    ensures Run(t, calls) == After(After(After(t, calls[0]), calls[1]), calls[2])
  {
    hide After;
    var t1 := After(t, calls[0]);
    var t2 := After(t1, calls[1]);
    var two := calls[1..];
    var one := two[1..];
    assert two[0] == calls[1] && one[0] == calls[2] && one[1..] == [];
    assert Run(t2, one) == Run(After(t2, calls[2]), []);
  }
}

module Nonces {
  import opened Bits
  import opened Errors
  import opened NonceSpec

  class NonceStore {
    var nonces: map<nat, nat>
    const maxNonces: nat
    const expirationSecs: nat

    ghost function View(): Store
      reads this
    {
      Store(nonces, maxNonces, expirationSecs)
    }

    constructor (maxNonces: nat, expirationSecs: nat)
      ensures View() == Store(map[], maxNonces, expirationSecs)
    {
      nonces := map[];
      this.maxNonces, this.expirationSecs := maxNonces, expirationSecs;
    }

    method CleanupExpired(now: nat)
      modifies this
      ensures View() == Cleaned(old(View()), now)
    {
      var kept: map<nat, nat> := map[];
      var todo := nonces.Keys;
      while todo != {}
        invariant nonces == old(nonces) && todo <= nonces.Keys
        invariant forall n :: n in kept <==> n in nonces && n !in todo && Max(now - nonces[n], 0) <= expirationSecs
        invariant forall n :: n in kept ==> kept[n] == nonces[n]
        decreases |todo|
      {
        var n :| n in todo;
        if Max(now - nonces[n], 0) <= expirationSecs { kept := kept[n := nonces[n]]; }
        todo := todo - {n};
      }
      nonces := kept;
    }

    method CheckNonce(nonce: nat, timestamp: nat, now: nat, later: nat) returns (r: Result<(), SecurityError>)
      modifies this
      ensures View() == Check(old(View()), nonce, timestamp, now, later).0
      ensures r == Check(old(View()), nonce, timestamp, now, later).1
    {
      if (if timestamp > now then timestamp > now + CLOCK_SKEW else now - timestamp > expirationSecs) {
        return Err(ExpiredTimestamp);
      }
      if nonce in nonces { return Err(ReplayAttack); }
      if |nonces| >= maxNonces {
        CleanupExpired(later);
        if |nonces| >= maxNonces { return Err(CapacityExceeded); }
      }
      nonces := nonces[nonce := timestamp];
      return Ok(());
    }
  }
}

module RequestWindow {
  import opened Bits

  /** The keys remembered, oldest first, at most `maxEntries` of them. */
  datatype Window = Window(order: seq<string>, maxEntries: nat)

  /** The last `n` elements. */
  function Suffix(s: seq<string>, n: nat): seq<string> {
    if |s| <= n then s else s[|s| - n..]
  }

  function Record(w: Window, key: string): Window {
    if key in w.order then w else w.(order := Suffix(w.order + [key], w.maxEntries))
  }

  lemma DropOne(s: seq<string>, i: nat)
    requires i < |s|
    ensures s[i..][1..] == s[i + 1..]
  {
  }

  predicate Accepts(w: Window, key: string) {
    key !in w.order
  }

  predicate Distinct(s: seq<string>) {
    forall i, j :: 0 <= i < j < |s| ==> s[i] != s[j]
  }

  /** The window holds the last keys of the log of all recorded keys, and they are distinct. */
  predicate WindowOf(w: Window, log: seq<string>) {
    w.order == Suffix(log, w.maxEntries) && Distinct(w.order)
  }

  /** Any two equal keys in the log are more than `n` places apart. */
  predicate Separated(log: seq<string>, n: nat) {
    forall i, j :: 0 <= i < j < |log| && log[i] == log[j] ==> j - i > n
  }

  function Log(log: seq<string>, w: Window, key: string): seq<string> {
    if Accepts(w, key) then log + [key] else log
  }

  /** The window accepts exactly the keys that are not among the last `maxEntries` recorded, and is never larger. */
  lemma AcceptsExactly(w: Window, log: seq<string>, key: string)
    requires WindowOf(w, log)
    ensures Accepts(w, key) <==> forall i :: 0 <= i < |log| && |log| - w.maxEntries <= i ==> log[i] != key
    ensures |w.order| == if |log| <= w.maxEntries then |log| else w.maxEntries
  {
    var first := |log| - |w.order|;
    assert forall i :: first <= i < |log| ==> log[i] == w.order[i - first];
    assert forall k :: 0 <= k < |w.order| ==> w.order[k] == log[first + k];
  }

  lemma RecordKeepsWindow(w: Window, log: seq<string>, key: string)
    requires WindowOf(w, log) && Separated(log, w.maxEntries)
    ensures WindowOf(Record(w, key), Log(log, w, key))
    ensures Separated(Log(log, w, key), w.maxEntries)
  {
    if Accepts(w, key) {
      hide Separated, Distinct;
      forall i | |log| - |w.order| <= i < |log| ensures log[i] != key {
        assert log[i] == w.order[i - (|log| - |w.order|)];
      }
      SuffixSnoc(log, w.order, w.maxEntries, key);
      StillSeparated(log, w.maxEntries, key);
    }
  }

  lemma SuffixSnoc(log: seq<string>, order: seq<string>, n: nat, key: string)
    requires order == Suffix(log, n) && Distinct(order) && key !in order
    ensures Suffix(order + [key], n) == Suffix(log + [key], n) && Distinct(Suffix(order + [key], n))
  {
  }

  lemma StillSeparated(log: seq<string>, n: nat, key: string)
    requires Separated(log, n) && forall i :: 0 <= i < |log| && |log| - n <= i ==> log[i] != key
    ensures Separated(log + [key], n)
  {
    var log' := log + [key];
    assert forall i :: 0 <= i < |log| ==> log'[i] == log[i];
  }

  /** Between two acceptances of a key at least `maxEntries` other keys have been recorded, all different. */
  lemma KeysBetweenAreOthers(log: seq<string>, n: nat, i: nat, j: nat)
    requires Separated(log, n) && i < j < |log| && log[i] == log[j]
    ensures j - i - 1 >= n
    ensures forall k :: i < k <= i + n ==> log[k] != log[i]
    ensures forall k, m :: i < k < m <= i + n ==> log[k] != log[m]
  {
  }

  /** The set has exactly the keys of the list, which occur once each. */
  ghost predicate Indexes(seen: set<string>, order: seq<string>) {
    (forall k :: k in seen <==> k in order) && Distinct(order)
  }

  lemma IndexesMore(seen: set<string>, order: seq<string>, key: string)
    requires Indexes(seen, order) && key !in seen
    ensures Indexes(seen + {key}, order + [key])
  {
  }

  lemma IndexesRest(seen: set<string>, order: seq<string>)
    requires Indexes(seen, order) && order != []
    ensures Indexes(seen - {order[0]}, order[1..])
  {
  }

  class RequestReplayGuard {
    var seen: set<string>
    var order: seq<string>
    const maxEntries: nat

    ghost predicate Valid()
      reads this
    {
      Indexes(seen, order) && |order| <= maxEntries
    }

    ghost function View(): Window
      reads this
    {
      Window(order, maxEntries)
    }

    constructor (maxEntries: nat)
      ensures Valid() && View() == Window([], maxEntries)
    {
      seen, order := {}, [];
      this.maxEntries := maxEntries;
    }

    method CheckAndRecord(key: string) returns (isNew: bool)
      requires Valid()
      modifies this
      ensures Valid()
      ensures isNew == Accepts(old(View()), key)
      ensures View() == Record(old(View()), key)
    {
      if key in seen { return false; }
      IndexesMore(seen, order, key);
      hide Indexes;
      seen := seen + {key};
      order := order + [key];
      ghost var all := order;
      while |order| > maxEntries
        invariant Indexes(seen, order)
        invariant |order| <= |all| && order == all[|all| - |order|..]
        invariant |order| >= Min(maxEntries, |all|)
        decreases |order|
      {
        var expired := order[0];
        DropOne(all, |all| - |order|);
        IndexesRest(seen, order);
        order := order[1..];
        seen := seen - {expired};
      }
      return true;
    }
  }
}
