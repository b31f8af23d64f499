/** apps/api/src/common/rate-limit-store.ts: the in-memory store, the Upstash commands, the atomic Lua script and
    the failover wrapper. Times are milliseconds. */
module RateLimit {
  import opened FiniteSets
  import opened FixedWindow
  import opened Wrappers

  datatype ConsumeResult = ConsumeResult(allowed: bool, count: int, resetAt: int)

  /** The length of a window, at least one millisecond. */
  function WindowLength(windowMs: int): (w: int)
    ensures w >= 1 && w >= windowMs && (w == windowMs || w == 1)
  {
    if windowMs < 1 then 1 else windowMs
  }

  // ---------- the in-memory store ----------

  datatype Entry = Entry(count: nat, resetAt: int)

  /** One consume call against a key's entry. */
  function MemoryStep(current: Option<Entry>, max: int, windowMs: int, now: int): (Entry, ConsumeResult) {
    if current.None? || current.value.resetAt <= now then
      var resetAt := now + WindowLength(windowMs);
      (Entry(1, resetAt), ConsumeResult(true, 1, resetAt))
    else
      var count := current.value.count + 1;
      (Entry(count, current.value.resetAt), ConsumeResult(count <= max, count, current.value.resetAt))
  }

  function Lookup<K, V>(m: map<K, V>, k: K): Option<V> {
    if k in m then Some(m[k]) else None
  }

  class InMemoryRateLimitStore {
    var entries: map<string, Entry>

    constructor ()
      ensures entries == map[]
    {
      entries := map[];
    }

    method Consume(key: string, max: int, windowMs: int, now: int) returns (result: ConsumeResult)
      modifies this
      ensures (var next := MemoryStep(Lookup(old(entries), key), max, windowMs, now);
               entries == old(entries)[key := next.0] && result == next.1)
    {
      var length := WindowLength(windowMs);
      if key !in entries || entries[key].resetAt <= now {
        var resetAt := now + length;
        entries := entries[key := Entry(1, resetAt)];
        return ConsumeResult(true, 1, resetAt);
      }
      var current := entries[key];
      current := current.(count := current.count + 1);
      entries := entries[key := current];
      return ConsumeResult(current.count <= max, current.count, current.resetAt);
    }
  }

  // ---------- runs of the in-memory store ----------

  datatype Call = Call(key: string, max: int, windowMs: int, now: int)

  /** The store's entries after a run of consume calls, oldest first. */
  ghost function StoreAfter(calls: seq<Call>): map<string, Entry> {
    if |calls| == 0 then map[] else
    var c := calls[|calls| - 1];
    var before := StoreAfter(calls[..|calls| - 1]);
    before[c.key := MemoryStep(Lookup(before, c.key), c.max, c.windowMs, c.now).0]
  }

  /** The times of the calls for one key. */
  ghost function TimesOf(calls: seq<Call>, key: string): seq<int> {
    if |calls| == 0 then [] else
    var c := calls[|calls| - 1];
    TimesOf(calls[..|calls| - 1], key) + (if c.key == key then [c.now] else [])
  }

  ghost function EntryAfter(times: seq<int>, windowMs: int): Option<Entry> {
    if |times| == 0 then None else
    Some(MemoryStep(EntryAfter(times[..|times| - 1], windowMs), 0, windowMs, times[|times| - 1]).0)
  }

  lemma EntryNext(times: seq<int>, now: int, max: int, windowMs: int)
    ensures EntryAfter(times + [now], windowMs) == Some(MemoryStep(EntryAfter(times, windowMs), max, windowMs, now).0)
  {
    assert (times + [now])[..|times|] == times;
    MemoryStepEntry(EntryAfter(times, windowMs), 0, max, windowMs, now);
  }

  lemma StoreNext(calls: seq<Call>, key: string)
    requires |calls| > 0
    ensures var c, before := calls[|calls| - 1], StoreAfter(calls[..|calls| - 1]);
      Lookup(StoreAfter(calls), key)
      == if c.key == key then Some(MemoryStep(Lookup(before, key), c.max, c.windowMs, c.now).0) else Lookup(before, key)
  {
  }

  lemma TimesNext(calls: seq<Call>, key: string)
    requires |calls| > 0
    ensures var c, before := calls[|calls| - 1], TimesOf(calls[..|calls| - 1], key);
      TimesOf(calls, key) == if c.key == key then before + [c.now] else before
  {
  }

  /** Keys do not interfere: a key's entry depends only on that key's own calls. */
  lemma {:induction false} KeysIndependent(calls: seq<Call>, key: string, windowMs: int)
    requires forall i :: 0 <= i < |calls| && calls[i].key == key ==> calls[i].windowMs == windowMs
    ensures Lookup(StoreAfter(calls), key) == EntryAfter(TimesOf(calls, key), windowMs)
  {
    if |calls| > 0 {
      var c, before := calls[|calls| - 1], calls[..|calls| - 1];
      KeysIndependent(before, key, windowMs);
      StoreNext(calls, key);
      TimesNext(calls, key);
      EntryNext(TimesOf(before, key), c.now, c.max, windowMs);
    }
  }

  ghost predicate NonDecreasing(times: seq<int>) {
    forall i, j :: 0 <= i < j < |times| ==> times[i] <= times[j]
  }

  /** The call that opened the window which the call i falls into: the first call opens one, and a
      call opens the next when the window of the call before it is over. */
  ghost function Opener(times: seq<int>, i: nat, length: int): (o: nat)
    requires i < |times|
    ensures o <= i
  {
    if i == 0 then 0 else
    var o := Opener(times, i - 1, length);
    if times[o] + length <= times[i] then i else o
  }

  /** What the store answers to the call i. */
  ghost function Decision(times: seq<int>, i: nat, max: int, windowMs: int): ConsumeResult
    requires i < |times|
  {
    MemoryStep(EntryAfter(times[..i], windowMs), max, windowMs, times[i]).1
  }

  lemma {:induction false} EntryOf(times: seq<int>, i: nat, windowMs: int)
    requires i < |times|
    ensures var o := Opener(times, i, WindowLength(windowMs));
      EntryAfter(times[..i + 1], windowMs) == Some(Entry(i - o + 1, times[o] + WindowLength(windowMs)))
    decreases i
  {
    assert times[..i + 1][..i] == times[..i];
    if i > 0 {
      EntryOf(times, i - 1, windowMs);
    }
  }

  /** Each window admits exactly its first max calls: the call i is the (i - o + 1)-th of the window
      its opener o started, and that is what is answered. */
  lemma FirstMaxAdmitted(times: seq<int>, i: nat, max: int, windowMs: int)
    requires i < |times| && max >= 1
    ensures var o := Opener(times, i, WindowLength(windowMs));
      Decision(times, i, max, windowMs)
        == ConsumeResult(i - o + 1 <= max, i - o + 1, times[o] + WindowLength(windowMs))
  {
    if i > 0 {
      EntryOf(times, i - 1, windowMs);
    }
  }

  /** A limit below one is not honoured by the in-memory store: the call that opens a window passes. */
  lemma OpenerAlwaysAdmitted(times: seq<int>, i: nat, max: int, windowMs: int)
    requires i < |times| && Opener(times, i, WindowLength(windowMs)) == i
    ensures Decision(times, i, max, windowMs).allowed
  {
    if i > 0 {
      EntryOf(times, i - 1, windowMs);
    }
  }

  /** The opener of a window opens it. */
  lemma {:induction false} OpenerOpens(times: seq<int>, i: nat, length: int)
    requires i < |times|
    ensures Opener(times, Opener(times, i, length), length) == Opener(times, i, length)
  {
    if i > 0 {
      OpenerOpens(times, i - 1, length);
    }
  }

  /** Later calls have the same window or one that starts a length later, and after the earlier call. */
  lemma {:induction false} OpenersOrdered(times: seq<int>, i: nat, j: nat, length: int)
    requires NonDecreasing(times) && i <= j < |times| && length > 0
    ensures var p, q := Opener(times, i, length), Opener(times, j, length);
      p <= q && (p < q ==> i < q && times[p] + length <= times[q])
    decreases j
  {
    if i < j {
      OpenersOrdered(times, i, j - 1, length);
      NotEarlier(times, Opener(times, i, length), Opener(times, j - 1, length));
    }
  }

  lemma NotEarlier(times: seq<int>, p: nat, q: nat)
    requires NonDecreasing(times) && p <= q < |times|
    ensures times[p] <= times[q]
  {
  }

  /** The admitted calls of a run, by their numbers. */
  ghost function AdmittedTakes(times: seq<int>, max: int, windowMs: int): map<nat, Take> {
    map i: nat | 0 <= i < |times| && Decision(times, i, max, windowMs).allowed ::
      var o := Opener(times, i, WindowLength(windowMs));
      Take(o, i - o + 1, times[i])
  }

  ghost function WindowStarts(times: seq<int>, length: int): map<nat, int> {
    map o: nat | 0 <= o < |times| && Opener(times, o, length) == o :: times[o]
  }

  lemma MemoryFits(times: seq<int>, max: int, windowMs: int)
    requires NonDecreasing(times) && max >= 1
    ensures Spaced(WindowStarts(times, WindowLength(windowMs)), WindowLength(windowMs))
    ensures Fits(AdmittedTakes(times, max, windowMs), WindowStarts(times, WindowLength(windowMs)), max)
  {
    var length := WindowLength(windowMs);
    var takes, starts := AdmittedTakes(times, max, windowMs), WindowStarts(times, length);
    forall w, x | w in starts && x in starts && w < x ensures starts[w] + length <= starts[x] {
      OpenersOrdered(times, w, x, length);
    }
    forall a | a in takes ensures PlaceFits(takes[a], starts, max) {
      AdmittedPlaceFits(times, max, windowMs, a);
    }
  }

  ghost predicate PlaceFits(take: Take, starts: map<nat, int>, max: int) {
    && 1 <= take.ordinal <= max && take.window in starts && starts[take.window] <= take.time
    && (forall x :: x in starts && take.window < x ==> take.time <= starts[x])
  }

  lemma AdmittedPlaceFits(times: seq<int>, max: int, windowMs: int, a: nat)
    requires NonDecreasing(times) && max >= 1 && a in AdmittedTakes(times, max, windowMs)
    ensures PlaceFits(AdmittedTakes(times, max, windowMs)[a], WindowStarts(times, WindowLength(windowMs)), max)
  {
    var length := WindowLength(windowMs);
    var take, starts := AdmittedTakes(times, max, windowMs)[a], WindowStarts(times, length);
    FirstMaxAdmitted(times, a, max, windowMs);
    OpenerOpens(times, a, length);
    NotEarlier(times, take.window, a);
    forall x | x in starts && take.window < x ensures take.time <= starts[x] {
      if x <= a {
        OpenersOrdered(times, x, a, length);
      } else {
        NotEarlier(times, a, x);
      }
    }
  }

  /** In-memory: at most 2 * max calls of a key are admitted in any interval of a window length. */
  lemma MemoryTwiceMax(times: seq<int>, max: int, windowMs: int, from: int)
    requires NonDecreasing(times) && max >= 1
    ensures |Within(AdmittedTakes(times, max, windowMs), from, WindowLength(windowMs))| <= 2 * max
  {
    MemoryFits(times, max, windowMs);
    TwiceMax(AdmittedTakes(times, max, windowMs), WindowStarts(times, WindowLength(windowMs)), WindowLength(windowMs), max, from);
  }

  // ---------- the Redis stores behind the failover wrapper ----------

  datatype Policy = Policy(max: int, windowMs: int) {
    function Length(): int { WindowLength(windowMs) }
  }

  /** The limiter's key on the Redis server; without expiresAt it lives until it is given one. */
  datatype RedisKey = Absent | Present(count: nat, expiresAt: Option<int>)

  /** Where a consume call stands: the next command to send, or how it ended. A call that got its
      INCR answered holds a take: the key's lifetime, the count it was given, and when. */
  datatype Phase =
    | SetExpiry(take: Take)
    | ReadTtl(take: Take)
    | Answered(take: Take, allowed: bool)
    | Failing
    | FellBack(index: nat, allowed: bool)

  /** What becomes of a command: answered, executed with the answer lost, or not executed. */
  datatype Outcome = Ok | Lost | Refused

  datatype Action =
    | Tick(to: int)
    | Evict
    | Incr(caller: nat, outcome: Outcome)
    | PExpire(caller: nat, outcome: Outcome)
    | PTtl(caller: nat, outcome: Outcome)
    | Script(caller: nat, outcome: Outcome)
    | Fallback(caller: nat)

  /** One rate-limit key: the server's clock and key, the calls under way, the fallback store's entry
      with the times of the calls it was asked, and the start of every lifetime the key has had. */
  datatype System = System(
    clock: int,
    key: RedisKey,
    callers: map<nat, Phase>,
    memory: Option<Entry>,
    memoryTimes: seq<int>,
    starts: map<nat, int>)

  function Initial(clock: int): System {
    System(clock, Absent, map[], None, [], map[])
  }

  /** INCR: the count it returns and the state it leaves. */
  function Increment(s: System): (System, Take) {
    match s.key
    case Absent =>
      (s.(key := Present(1, None), starts := s.starts[|s.starts| := s.clock]), Take(|s.starts|, 1, s.clock))
    case Present(n, e) =>
      (s.(key := Present(n + 1, e)), Take(if |s.starts| == 0 then 0 else |s.starts| - 1, n + 1, s.clock))
  }

  /** PEXPIRE, which does nothing to a missing key. */
  function WithExpiry(key: RedisKey, at: int): RedisKey {
    if key.Present? then key.(expiresAt := Some(at)) else key
  }

  /** One step; an action that is not enabled changes nothing. */
  function Step(s: System, a: Action, p: Policy): System {
    match a
    case Tick(to) => if s.clock <= to then s.(clock := to) else s
    case Evict =>
      if s.key.Present? && s.key.expiresAt.Some? && s.key.expiresAt.value <= s.clock then s.(key := Absent) else s
    case Incr(c, o) =>
      if c in s.callers then s
      else if o.Refused? then s.(callers := s.callers[c := Failing])
      else
        var (t, take) := Increment(s);
        var next := if o.Lost? then Failing else if take.ordinal == 1 then SetExpiry(take) else ReadTtl(take);
        t.(callers := t.callers[c := next])
    case PExpire(c, o) =>
      if c !in s.callers || !s.callers[c].SetExpiry? then s
      else if o.Refused? then s.(callers := s.callers[c := Failing])
      else s.(key := WithExpiry(s.key, s.clock + p.Length()),
              callers := s.callers[c := if o.Lost? then Failing else ReadTtl(s.callers[c].take)])
    case PTtl(c, o) =>
      if c !in s.callers || !s.callers[c].ReadTtl? then s
      else
        var take := s.callers[c].take;
        s.(callers := s.callers[c := if o.Ok? then Answered(take, take.ordinal <= p.max) else Failing])
    case Script(c, o) =>
      if c in s.callers then s
      else if o.Refused? then s.(callers := s.callers[c := Failing])
      else
        var (t, take) := Increment(s);
        t.(key := if take.ordinal == 1 then WithExpiry(t.key, t.clock + p.Length()) else t.key,
           callers := t.callers[c := if o.Lost? then Failing else Answered(take, take.ordinal <= p.max)])
    case Fallback(c) =>
      if c !in s.callers || !s.callers[c].Failing? then s
      else
        var (entry, result) := MemoryStep(s.memory, p.max, p.windowMs, s.clock);
        s.(memory := Some(entry), memoryTimes := s.memoryTimes + [s.clock],
           callers := s.callers[c := FellBack(|s.memoryTimes|, result.allowed)])
  }

  /** The state after any sequence of actions, in any interleaving of the callers' commands. */
  ghost function Run(s: System, actions: seq<Action>, p: Policy): System {
    if |actions| == 0 then s else
    Step(Run(s, actions[..|actions| - 1], p), actions[|actions| - 1], p)
  }

  /** What the script answers: the caller gets the next place of the key's lifetime, passes exactly with one of the
      first max places, and the caller with the first place gives the key a window to live. */
  lemma ScriptAnswers(s: System, c: nat, p: Policy)
    requires c !in s.callers
    ensures
      var t := Step(s, Script(c, Ok), p);
      var place := if s.key.Absent? then 1 else s.key.count + 1;
      && c in t.callers && t.callers == s.callers[c := t.callers[c]] && t.callers[c].Answered?
      && t.callers[c].take.ordinal == place && t.callers[c].take.time == s.clock && t.clock == s.clock
      && (t.callers[c].allowed <==> place <= p.max)
      && t.key.Present? && t.key.count == place && t.memory == s.memory
      && (if place == 1 then t.key.expiresAt == Some(s.clock + if p.windowMs < 1 then 1 else p.windowMs)
          else s.key.Present? && t.key.expiresAt == s.key.expiresAt)
  {
  }

  /** A call whose command is refused, or whose answer is lost, fails over: its only next step asks the in-memory store. */
  lemma FailsOver(s: System, c: nat, o: Outcome, p: Policy)
    requires !o.Ok?
    ensures c !in s.callers ==> Step(s, Incr(c, o), p).callers == s.callers[c := Failing]
    ensures c !in s.callers ==> Step(s, Script(c, o), p).callers == s.callers[c := Failing]
    ensures c in s.callers && s.callers[c].SetExpiry? ==> Step(s, PExpire(c, o), p).callers == s.callers[c := Failing]
    ensures c in s.callers && s.callers[c].ReadTtl? ==> Step(s, PTtl(c, o), p) == s.(callers := s.callers[c := Failing])
    ensures o.Refused? ==> forall a | a in [Incr(c, o), Script(c, o), PExpire(c, o)] ::
              Step(s, a, p) == s.(callers := Step(s, a, p).callers)
    ensures c in s.callers && s.callers[c].Failing? ==>
      var t := Step(s, Fallback(c), p);
      var opens := s.memory.None? || s.memory.value.resetAt <= s.clock;
      && t.key == s.key && t.starts == s.starts && t.callers == s.callers[c := t.callers[c]] && t.callers[c].FellBack?
      && (t.callers[c].allowed <==> opens || s.memory.value.count + 1 <= p.max)
  {
  }

  /** The atomic script is one interleaving of the three separate commands. */
  lemma ScriptIsAnInterleaving(s: System, c: nat, o: Outcome, p: Policy)
    requires c !in s.callers && !o.Refused?
    ensures Step(s, Script(c, o), p) == Step(Step(Step(s, Incr(c, Ok), p), PExpire(c, Ok), p), PTtl(c, o), p)
  {
    var (t, take) := Increment(s);
    var s2 := Step(Step(s, Incr(c, Ok), p), PExpire(c, Ok), p);
    assert s2.callers == t.callers[c := ReadTtl(take)];
    assert Step(s2, PTtl(c, o), p).callers
        == t.callers[c := if o.Lost? then Failing else Answered(take, take.ordinal <= p.max)];
  }

  // ---------- the invariant ----------

  predicate HoldsTake(phase: Phase) {
    phase.SetExpiry? || phase.ReadTtl? || phase.Answered?
  }

  /** The lifetimes: numbered from 0, at least a window length apart, none later than the clock; the
      current one's expiry is at least a length after its start, and it ended no sooner. */
  ghost predicate LifetimesOk(s: System, length: int) {
    var n := |s.starts|;
    && (forall w: nat :: w in s.starts <==> w < n)
    && Spaced(s.starts, length)
    && (forall w :: w in s.starts ==> s.starts[w] <= s.clock)
    && (s.key.Present? ==> n > 0 && s.key.count >= 1)
    && (n > 0 && s.key.Present? && s.key.expiresAt.Some? ==> s.starts[n - 1] + length <= s.key.expiresAt.value)
    && (n > 0 && s.key.Absent? ==> s.starts[n - 1] + length <= s.clock)
  }

  ghost predicate TakeOk(s: System, t: Take) {
    && 1 <= t.ordinal && t.window in s.starts && s.starts[t.window] <= t.time <= s.clock
    && (forall w :: w in s.starts && t.window < w ==> t.time <= s.starts[w])
    && (s.key.Present? && t.window == |s.starts| - 1 ==> t.ordinal <= s.key.count)
  }

  /** Every call holds a place of its own. */
  ghost predicate TakesOk(s: System) {
    && (forall c :: c in s.callers && HoldsTake(s.callers[c]) ==> TakeOk(s, s.callers[c].take))
    && (forall c, d :: c in s.callers && d in s.callers && c != d
                       && HoldsTake(s.callers[c]) && HoldsTake(s.callers[d]) ==>
          s.callers[c].take.window != s.callers[d].take.window || s.callers[c].take.ordinal != s.callers[d].take.ordinal)
  }

  ghost predicate AnswersOk(s: System, p: Policy) {
    forall c :: c in s.callers && s.callers[c].Answered? ==>
      (s.callers[c].allowed <==> s.callers[c].take.ordinal <= p.max)
  }

  ghost predicate MemoryOk(s: System, p: Policy) {
    && s.memory == EntryAfter(s.memoryTimes, p.windowMs)
    && NonDecreasing(s.memoryTimes)
    && (forall i :: 0 <= i < |s.memoryTimes| ==> s.memoryTimes[i] <= s.clock)
  }

  /** Each call that fell back was one call to the fallback store and carries its answer. */
  ghost predicate FallbacksOk(s: System, p: Policy) {
    && (forall c :: c in s.callers && s.callers[c].FellBack? ==>
          s.callers[c].index < |s.memoryTimes|
          && s.callers[c].allowed == Decision(s.memoryTimes, s.callers[c].index, p.max, p.windowMs).allowed)
    && (forall c, d :: c in s.callers && d in s.callers && c != d && s.callers[c].FellBack? && s.callers[d].FellBack? ==>
          s.callers[c].index != s.callers[d].index)
  }

  ghost predicate RedisInv(s: System, p: Policy) {
    LifetimesOk(s, p.Length()) && TakesOk(s) && AnswersOk(s, p)
  }

  ghost predicate FallbackInv(s: System, p: Policy) {
    MemoryOk(s, p) && FallbacksOk(s, p)
  }

  /** A place nobody holds. */
  ghost predicate Free(s: System, take: Take) {
    forall c :: c in s.callers && HoldsTake(s.callers[c]) ==>
      s.callers[c].take.window != take.window || s.callers[c].take.ordinal != take.ordinal
  }

  /** INCR on a missing key starts the next lifetime. */
  lemma NewLifetime(s: System, length: int)
    requires length >= 1 && LifetimesOk(s, length) && TakesOk(s) && s.key.Absent?
    ensures var (t, take) := Increment(s);
            LifetimesOk(t, length) && TakesOk(t) && TakeOk(t, take) && Free(t, take)
  {
    NewLifetimeStarts(s, length);
    NewLifetimeTakes(s, length);
  }

  lemma NewLifetimeStarts(s: System, length: int)
    requires length >= 1 && LifetimesOk(s, length) && s.key.Absent?
    ensures LifetimesOk(Increment(s).0, length)
  {
    var t, n := Increment(s).0, |s.starts|;
    assert t.starts == s.starts[n := s.clock];
    assert |t.starts| == n + 1;
    SpacedExtend(s.starts, n, s.clock, length);
  }

  lemma NewLifetimeTakes(s: System, length: int)
    requires length >= 1 && LifetimesOk(s, length) && TakesOk(s) && s.key.Absent?
    ensures var (t, take) := Increment(s); TakesOk(t) && TakeOk(t, take) && Free(t, take)
  {
    var (t, take) := Increment(s);
    forall c | c in s.callers && HoldsTake(s.callers[c])
      ensures TakeOk(t, s.callers[c].take) && s.callers[c].take.window != take.window
    {
      assert TakeOk(s, s.callers[c].take);
    }
  }

  lemma SpacedExtend(starts: map<nat, int>, n: nat, x: int, length: int)
    requires length >= 1 && Spaced(starts, length) && forall w: nat :: w in starts <==> w < n
    requires n > 0 ==> starts[n - 1] + length <= x
    ensures Spaced(starts[n := x], length)
  {
    assert forall w :: w in starts && w < n - 1 ==> starts[w] + length <= starts[n - 1];
  }

  /** INCR on a live key hands out the next place of its lifetime. */
  lemma SameLifetime(s: System, length: int)
    requires length >= 1 && LifetimesOk(s, length) && TakesOk(s) && s.key.Present?
    ensures var (t, take) := Increment(s);
            LifetimesOk(t, length) && TakesOk(t) && TakeOk(t, take) && Free(t, take)
  {
    var (t, take) := Increment(s);
    assert t.starts == s.starts;
    forall c | c in s.callers && HoldsTake(s.callers[c])
      ensures TakeOk(t, s.callers[c].take)
      ensures s.callers[c].take.window != take.window || s.callers[c].take.ordinal != take.ordinal
    {
      assert TakeOk(s, s.callers[c].take);
    }
  }

  /** A caller moves on: it drops its take, keeps it, or gets a free place. */
  lemma PhaseChange(s: System, c: nat, phase: Phase)
    requires TakesOk(s)
    requires HoldsTake(phase) ==>
      || (c in s.callers && HoldsTake(s.callers[c]) && s.callers[c].take == phase.take)
      || (TakeOk(s, phase.take) && Free(s, phase.take))
    ensures TakesOk(s.(callers := s.callers[c := phase]))
  {
    var t := s.(callers := s.callers[c := phase]);
    forall d | d in t.callers && HoldsTake(t.callers[d]) ensures TakeOk(t, t.callers[d].take) {
      assert TakeOk(s, t.callers[d].take);
    }
  }

  lemma PhaseKeepsInv(s: System, c: nat, phase: Phase, p: Policy)
    requires RedisInv(s, p)
    requires HoldsTake(phase) ==>
      || (c in s.callers && HoldsTake(s.callers[c]) && s.callers[c].take == phase.take)
      || (TakeOk(s, phase.take) && Free(s, phase.take))
    requires phase.Answered? ==> (phase.allowed <==> phase.take.ordinal <= p.max)
    ensures RedisInv(s.(callers := s.callers[c := phase]), p)
  {
    PhaseChange(s, c, phase);
  }

  /** Only the key, its expiry, or the clock changes. */
  lemma TakesKept(s: System, t: System)
    requires TakesOk(s) && t.callers == s.callers && t.starts == s.starts && s.clock <= t.clock
    requires t.key.Present? ==> s.key.Present? && s.key.count == t.key.count
    ensures TakesOk(t)
  {
    forall d | d in t.callers && HoldsTake(t.callers[d]) ensures TakeOk(t, t.callers[d].take) {
      assert TakeOk(s, t.callers[d].take);
    }
  }

  lemma IncrInv(s: System, c: nat, o: Outcome, p: Policy)
    requires RedisInv(s, p)
    ensures RedisInv(Step(s, Incr(c, o), p), p)
  {
    if c !in s.callers && o.Refused? {
      PhaseKeepsInv(s, c, Failing, p);
    } else if c !in s.callers {
      IncrementInv(s, p.Length());
      var (t, take) := Increment(s);
      assert RedisInv(t, p);
      PhaseKeepsInv(t, c, if o.Lost? then Failing else if take.ordinal == 1 then SetExpiry(take) else ReadTtl(take), p);
    }
  }

  lemma IncrementInv(s: System, length: int)
    requires length >= 1 && LifetimesOk(s, length) && TakesOk(s)
    ensures var (t, take) := Increment(s);
            LifetimesOk(t, length) && TakesOk(t) && TakeOk(t, take) && Free(t, take)
  {
    if s.key.Absent? { NewLifetime(s, length); } else { SameLifetime(s, length); }
  }

  lemma PExpireInv(s: System, c: nat, o: Outcome, p: Policy)
    requires RedisInv(s, p)
    ensures RedisInv(Step(s, PExpire(c, o), p), p)
  {
    if c in s.callers && s.callers[c].SetExpiry? {
      if o.Refused? {
        PhaseKeepsInv(s, c, Failing, p);
      } else {
        PExpireExecuted(s, c, if o.Lost? then Failing else ReadTtl(s.callers[c].take), p, Step(s, PExpire(c, o), p));
      }
    }
  }

  lemma PExpireExecuted(s: System, c: nat, phase: Phase, p: Policy, next: System)
    requires RedisInv(s, p) && c in s.callers && s.callers[c].SetExpiry?
    requires phase == Failing || phase == ReadTtl(s.callers[c].take)
    requires next == s.(key := WithExpiry(s.key, s.clock + p.Length()), callers := s.callers[c := phase])
    ensures RedisInv(next, p)
  {
    ExpiryKeepsInv(s, p);
    PhaseKeepsInv(s.(key := WithExpiry(s.key, s.clock + p.Length())), c, phase, p);
  }

  lemma ExpiryKeepsInv(s: System, p: Policy)
    requires RedisInv(s, p)
    ensures RedisInv(s.(key := WithExpiry(s.key, s.clock + p.Length())), p)
  {
    TakesKept(s, s.(key := WithExpiry(s.key, s.clock + p.Length())));
  }

  lemma PTtlInv(s: System, c: nat, o: Outcome, p: Policy)
    requires RedisInv(s, p)
    ensures RedisInv(Step(s, PTtl(c, o), p), p)
  {
    if c in s.callers && s.callers[c].ReadTtl? {
      var take := s.callers[c].take;
      PhaseKeepsInv(s, c, if o.Ok? then Answered(take, take.ordinal <= p.max) else Failing, p);
    }
  }

  lemma ScriptInv(s: System, c: nat, o: Outcome, p: Policy)
    requires RedisInv(s, p)
    ensures RedisInv(Step(s, Script(c, o), p), p)
  {
    if c !in s.callers && o.Refused? {
      PhaseKeepsInv(s, c, Failing, p);
    } else if c !in s.callers {
      ScriptIsAnInterleaving(s, c, o, p);
      IncrInv(s, c, Ok, p);
      PExpireInv(Step(s, Incr(c, Ok), p), c, Ok, p);
      PTtlInv(Step(Step(s, Incr(c, Ok), p), PExpire(c, Ok), p), c, o, p);
    }
  }

  lemma TickInv(s: System, to: int, p: Policy)
    requires RedisInv(s, p)
    ensures RedisInv(Step(s, Tick(to), p), p)
  {
    if s.clock <= to {
      TakesKept(s, s.(clock := to));
      LifetimesTick(s, to, p.Length());
    }
  }

  lemma LifetimesTick(s: System, to: int, length: int)
    requires LifetimesOk(s, length) && s.clock <= to
    ensures LifetimesOk(s.(clock := to), length)
  {
  }

  lemma EvictInv(s: System, p: Policy)
    requires RedisInv(s, p)
    ensures RedisInv(Step(s, Evict, p), p)
  {
    if s.key.Present? && s.key.expiresAt.Some? && s.key.expiresAt.value <= s.clock {
      TakesKept(s, s.(key := Absent));
      LifetimesEvict(s, p.Length());
    }
  }

  lemma LifetimesEvict(s: System, length: int)
    requires LifetimesOk(s, length) && s.key.Present? && s.key.expiresAt.Some? && s.key.expiresAt.value <= s.clock
    ensures LifetimesOk(s.(key := Absent), length)
  {
  }

  lemma FallbackKeepsRedis(s: System, c: nat, p: Policy)
    requires RedisInv(s, p)
    ensures RedisInv(Step(s, Fallback(c), p), p)
  {
    if c in s.callers && s.callers[c].Failing? {
      var t := Step(s, Fallback(c), p);
      PhaseKeepsInv(s, c, t.callers[c], p);
      assert t.callers == s.callers[c := t.callers[c]];
      RedisPartKept(s.(callers := s.callers[c := t.callers[c]]), t, p);
    }
  }

  /** The invariant does not look at the fallback store. */
  lemma RedisPartKept(s: System, t: System, p: Policy)
    requires RedisInv(s, p) && t.clock == s.clock && t.key == s.key && t.callers == s.callers && t.starts == s.starts
    ensures RedisInv(t, p)
  {
    TakesKept(s, t);
  }

  /** Every action of every caller keeps the key's invariant; the script by way of its three commands. */
  lemma RedisStepInv(s: System, a: Action, p: Policy)
    requires RedisInv(s, p)
    ensures RedisInv(Step(s, a, p), p)
  {
    match a
    case Tick(to) => TickInv(s, to, p);
    case Evict => EvictInv(s, p);
    case Incr(c, o) => IncrInv(s, c, o, p);
    case PExpire(c, o) => PExpireInv(s, c, o, p);
    case PTtl(c, o) => PTtlInv(s, c, o, p);
    case Script(c, o) => ScriptInv(s, c, o, p);
    case Fallback(c) => FallbackKeepsRedis(s, c, p);
  }

  lemma MemoryStepEntry(current: Option<Entry>, max: int, max': int, windowMs: int, now: int)
    ensures MemoryStep(current, max, windowMs, now).0 == MemoryStep(current, max', windowMs, now).0
  {
  }

  lemma EarlierDecision(times: seq<int>, x: int, i: nat, max: int, windowMs: int)
    requires i < |times|
    ensures Decision(times + [x], i, max, windowMs) == Decision(times, i, max, windowMs)
  {
    assert (times + [x])[..i] == times[..i];
  }

  /** Steps other than a fallback leave the fallback store and its callers alone. */
  lemma FallbackUntouched(s: System, a: Action, p: Policy)
    requires FallbackInv(s, p) && !a.Fallback?
    ensures FallbackInv(Step(s, a, p), p)
  {
    StoreUntouched(s, a, p);
    FallbacksKept(s, Step(s, a, p), p);
  }

  lemma StoreUntouched(s: System, a: Action, p: Policy)
    requires !a.Fallback?
    ensures var t := Step(s, a, p);
      && t.memory == s.memory && t.memoryTimes == s.memoryTimes && s.clock <= t.clock
      && forall c :: c in t.callers && t.callers[c].FellBack? ==> c in s.callers && s.callers[c] == t.callers[c]
  {
  }

  lemma FallbacksKept(s: System, t: System, p: Policy)
    requires FallbackInv(s, p) && t.memory == s.memory && t.memoryTimes == s.memoryTimes && s.clock <= t.clock
    requires forall c :: c in t.callers && t.callers[c].FellBack? ==> c in s.callers && s.callers[c] == t.callers[c]
    ensures FallbackInv(t, p)
  {
  }

  /** A call that falls back is one more call of the fallback store's run. */
  lemma FallbackStepInv(s: System, c: nat, p: Policy)
    requires FallbackInv(s, p)
    ensures FallbackInv(Step(s, Fallback(c), p), p)
  {
    if c in s.callers && s.callers[c].Failing? {
      var times := s.memoryTimes + [s.clock];
      assert times[..|s.memoryTimes|] == s.memoryTimes;
      MemoryStepEntry(s.memory, p.max, 0, p.windowMs, s.clock);
      forall d | d in s.callers && s.callers[d].FellBack?
        ensures Decision(times, s.callers[d].index, p.max, p.windowMs)
             == Decision(s.memoryTimes, s.callers[d].index, p.max, p.windowMs)
      {
        EarlierDecision(s.memoryTimes, s.clock, s.callers[d].index, p.max, p.windowMs);
      }
    }
  }

  /** The invariant holds in every state any run reaches. */
  lemma {:induction false} RunInv(clock: int, actions: seq<Action>, p: Policy)
    ensures RedisInv(Run(Initial(clock), actions, p), p)
    ensures FallbackInv(Run(Initial(clock), actions, p), p)
  {
    if |actions| > 0 {
      RunInv(clock, actions[..|actions| - 1], p);
      RedisStepInv(Run(Initial(clock), actions[..|actions| - 1], p), actions[|actions| - 1], p);
      if actions[|actions| - 1].Fallback? {
        FallbackStepInv(Run(Initial(clock), actions[..|actions| - 1], p), actions[|actions| - 1].caller, p);
      } else {
        FallbackUntouched(Run(Initial(clock), actions[..|actions| - 1], p), actions[|actions| - 1], p);
      }
    }
  }

  // ---------- what the wrapper admits ----------

  /** The calls Redis let through, dated by their INCR. */
  ghost function PrimaryAdmitted(s: System): map<nat, Take> {
    map c | c in s.callers && s.callers[c].Answered? && s.callers[c].allowed :: s.callers[c].take
  }

  /** The calls the fallback store let through, dated by its clock. */
  ghost function FallbackAdmitted(s: System, p: Policy): map<nat, Take> {
    map c | c in s.callers && s.callers[c].FellBack? && s.callers[c].index < |s.memoryTimes| && s.callers[c].allowed ::
      var i := s.callers[c].index;
      var o := Opener(s.memoryTimes, i, p.Length());
      Take(o, i - o + 1, s.memoryTimes[i])
  }

  /** Everything the wrapper let through. */
  ghost function Admitted(s: System, p: Policy): map<nat, Take> {
    PrimaryAdmitted(s) + FallbackAdmitted(s, p)
  }

  /** Upstash or script: in every reachable state each lifetime of the key lasts at least a window
      length and lets at most max calls through, so that Redis admits at most 2 * max calls in any
      interval of a window length. */
  lemma PrimaryTwiceMax(clock: int, actions: seq<Action>, p: Policy, from: int)
    requires p.max >= 0
    ensures var s := Run(Initial(clock), actions, p);
      && Spaced(s.starts, p.Length())
      && Fits(PrimaryAdmitted(s), s.starts, p.max)
      && |Within(PrimaryAdmitted(s), from, p.Length())| <= 2 * p.max
  {
    RunInv(clock, actions, p);
    var s := Run(Initial(clock), actions, p);
    PrimaryFits(s, p);
    TwiceMax(PrimaryAdmitted(s), s.starts, p.Length(), p.max, from);
  }

  /** With the fallback store the wrapper admits at most 4 * max calls in any interval of a window
      length, for every interleaving and every pattern of failures. */
  lemma WrapperFourTimesMax(clock: int, actions: seq<Action>, p: Policy, from: int)
    requires p.max >= 1
    ensures |Within(Admitted(Run(Initial(clock), actions, p), p), from, p.Length())| <= 4 * p.max
  {
    var s := Run(Initial(clock), actions, p);
    RunInv(clock, actions, p);
    PrimaryTwiceMax(clock, actions, p, from);
    FallbackTwiceMax(s, p, from);
    WithinUnion(PrimaryAdmitted(s), FallbackAdmitted(s, p), from, p.Length());
  }

  lemma WithinUnion(a: map<nat, Take>, b: map<nat, Take>, from: int, length: int)
    ensures |Within(a + b, from, length)| <= |Within(a, from, length)| + |Within(b, from, length)|
  {
    var w := Within(a, from, length) + Within(b, from, length);
    assert Within(a + b, from, length) <= w;
    SubsetCard(Within(a + b, from, length), w);
  }

  lemma FallbackTwiceMax(s: System, p: Policy, from: int)
    requires FallbackInv(s, p) && p.max >= 1
    ensures |Within(FallbackAdmitted(s, p), from, p.Length())| <= 2 * p.max
  {
    FallbackFits(s, p);
    TwiceMax(FallbackAdmitted(s, p), WindowStarts(s.memoryTimes, p.Length()), p.Length(), p.max, from);
  }

  lemma FallbackFits(s: System, p: Policy)
    requires FallbackInv(s, p) && p.max >= 1
    ensures Spaced(WindowStarts(s.memoryTimes, p.Length()), p.Length())
    ensures Fits(FallbackAdmitted(s, p), WindowStarts(s.memoryTimes, p.Length()), p.max)
  {
    MemoryFits(s.memoryTimes, p.max, p.windowMs);
    var all := AdmittedTakes(s.memoryTimes, p.max, p.windowMs);
    var takes := FallbackAdmitted(s, p);
    forall c | c in takes ensures s.callers[c].index in all && takes[c] == all[s.callers[c].index] {
    }
  }

  lemma PrimaryFits(s: System, p: Policy)
    requires RedisInv(s, p)
    ensures Fits(PrimaryAdmitted(s), s.starts, p.max)
  {
    var takes := PrimaryAdmitted(s);
    forall a | a in takes
      ensures && 1 <= takes[a].ordinal <= p.max
              && takes[a].window in s.starts && s.starts[takes[a].window] <= takes[a].time
              && (forall x :: x in s.starts && takes[a].window < x ==> takes[a].time <= s.starts[x])
    {
      assert TakeOk(s, takes[a]);
    }
  }

  // ---------- when a lifetime ends ----------

  /** A key without an expiry that nobody is about to give one. */
  ghost predicate Stuck(s: System) {
    && s.key.Present? && s.key.count >= 1 && s.key.expiresAt.None?
    && forall c :: c in s.callers ==> !s.callers[c].SetExpiry?
  }

  /** The calls that started after s and got an INCR answer were all too late. */
  ghost predicate NewcomersDenied(s: System, t: System, p: Policy) {
    && Stuck(t) && s.key.Present? && t.key.Present? && s.key.count <= t.key.count
    && forall c :: c in t.callers && c !in s.callers && HoldsTake(t.callers[c]) ==>
         t.callers[c].take.ordinal > p.max && (t.callers[c].Answered? ==> !t.callers[c].allowed)
  }

  /** Such a key, once it counts max calls, blocks: no later call is ever admitted by Redis. */
  lemma {:induction false} LostExpiryBlocks(s: System, actions: seq<Action>, p: Policy)
    requires Stuck(s) && s.key.count >= p.max
    ensures NewcomersDenied(s, Run(s, actions, p), p)
    ensures forall c :: c in PrimaryAdmitted(Run(s, actions, p)) ==> c in s.callers
  {
    if |actions| > 0 {
      var t := Run(s, actions[..|actions| - 1], p);
      LostExpiryBlocks(s, actions[..|actions| - 1], p);
      BlockedStep(s, t, actions[|actions| - 1], p);
    }
  }

  lemma BlockedStep(s: System, t: System, a: Action, p: Policy)
    requires NewcomersDenied(s, t, p) && s.key.count >= p.max
    ensures NewcomersDenied(s, Step(t, a, p), p)
  {
    match a
    case Incr(c, o) => BlockedIncr(s, t, c, o, p);
    case Script(c, o) => BlockedScript(s, t, c, o, p);
    case _ =>
  }

  lemma BlockedIncr(s: System, t: System, c: nat, o: Outcome, p: Policy)
    requires NewcomersDenied(s, t, p) && s.key.count >= p.max
    ensures NewcomersDenied(s, Step(t, Incr(c, o), p), p)
  {
  }

  lemma BlockedScript(s: System, t: System, c: nat, o: Outcome, p: Policy)
    requires NewcomersDenied(s, t, p) && s.key.count >= p.max
    ensures NewcomersDenied(s, Step(t, Script(c, o), p), p)
  {
  }

  /** What a caller does when nobody interferes. */
  function Enter(c: nat): seq<Action> {
    [Incr(c, Ok), PExpire(c, Ok), PTtl(c, Ok)]
  }

  lemma {:induction false} RunAppend(s: System, a: seq<Action>, b: seq<Action>, p: Policy)
    ensures Run(s, a + b, p) == Run(Run(s, a, p), b, p)
  {
    if |b| == 0 {
      assert a + b == a;
    } else {
      assert (a + b)[..|a + b| - 1] == a + b[..|b| - 1];
      RunAppend(s, a, b[..|b| - 1], p);
    }
  }

  lemma RunOne(s: System, a: Action, p: Policy)
    ensures Run(s, [a], p) == Step(s, a, p)
  {
    assert [a][..0] == [];
  }

  /** A new caller gets in when the key is missing or counts less than max. */
  lemma Enters(s: System, c: nat, p: Policy)
    requires c !in s.callers && p.max >= 1 && (s.key.Absent? || 1 <= s.key.count < p.max)
    ensures c in PrimaryAdmitted(Run(s, Enter(c), p)) && Run(s, Enter(c), p).clock == s.clock
  {
    RunOne(s, Incr(c, Ok), p);
    RunAppend(s, [Incr(c, Ok)], [PExpire(c, Ok)], p);
    RunOne(Run(s, [Incr(c, Ok)], p), PExpire(c, Ok), p);
    RunAppend(s, [Incr(c, Ok), PExpire(c, Ok)], [PTtl(c, Ok)], p);
    RunOne(Run(s, [Incr(c, Ok), PExpire(c, Ok)], p), PTtl(c, Ok), p);
    assert [Incr(c, Ok)] + [PExpire(c, Ok)] == [Incr(c, Ok), PExpire(c, Ok)];
    assert [Incr(c, Ok), PExpire(c, Ok)] + [PTtl(c, Ok)] == Enter(c);
    ScriptIsAnInterleaving(s, c, Ok, p);
    ScriptAdmits(s, c, p);
  }

  lemma ScriptAdmits(s: System, c: nat, p: Policy)
    requires c !in s.callers && p.max >= 1 && (s.key.Absent? || 1 <= s.key.count < p.max)
    ensures c in PrimaryAdmitted(Step(s, Script(c, Ok), p))
  {
  }

  /** A key with an expiry goes when its time has come. */
  lemma ExpiresInTime(s: System, p: Policy)
    requires s.key.Present? && s.key.expiresAt.Some?
    ensures var t := Run(s, [Tick(Later(s.clock, s.key.expiresAt.value)), Evict], p);
      t.key.Absent? && t.callers == s.callers && t.clock == Later(s.clock, s.key.expiresAt.value)
  {
    var tick := Tick(Later(s.clock, s.key.expiresAt.value));
    RunOne(s, tick, p);
    RunAppend(s, [tick], [Evict], p);
    RunOne(Run(s, [tick], p), Evict, p);
    assert [tick] + [Evict] == [tick, Evict];
  }

  function Later(a: int, b: int): int { if a < b then b else a }

  /** A key that has been given an expiry goes within a window. */
  lemma {:induction false} ExpiresWithinWindow(clock: int, actions: seq<Action>, p: Policy)
    ensures ExpiresBy(Run(Initial(clock), actions, p), p.Length())
  {
    if |actions| > 0 {
      ExpiresWithinWindow(clock, actions[..|actions| - 1], p);
      StepExpiresBy(Run(Initial(clock), actions[..|actions| - 1], p), actions[|actions| - 1], p);
    }
  }

  predicate ExpiresBy(s: System, length: int) {
    s.key.Present? && s.key.expiresAt.Some? ==> s.key.expiresAt.value <= s.clock + length
  }

  lemma StepExpiresBy(s: System, a: Action, p: Policy)
    requires ExpiresBy(s, p.Length())
    ensures ExpiresBy(Step(s, a, p), p.Length())
  {
  }

  /** So, in every reachable state but those whose key has no expiry, any newcomer can pass within a window. */
  lemma NewcomerWithinWindow(clock: int, actions: seq<Action>, c: nat, p: Policy) returns (more: seq<Action>)
    requires p.max >= 1 && c !in Run(Initial(clock), actions, p).callers
    requires Run(Initial(clock), actions, p).key.Present? ==> Run(Initial(clock), actions, p).key.expiresAt.Some?
    ensures
      var s := Run(Initial(clock), actions, p);
      var t := Run(s, more, p);
      c in PrimaryAdmitted(t) && t.clock <= s.clock + if p.windowMs < 1 then 1 else p.windowMs
  {
    var s := Run(Initial(clock), actions, p);
    more := Enter(c);
    if s.key.Absent? {
      Enters(s, c, p);
    } else {
      var wait := [Tick(Later(s.clock, s.key.expiresAt.value)), Evict];
      ExpiresWithinWindow(clock, actions, p);
      ExpiresInTime(s, p);
      Enters(Run(s, wait, p), c, p);
      RunAppend(s, wait, more, p);
      more := wait + more;
    }
  }

  /** Unless the key is stuck and full, some continuation lets a new caller in: a pending PEXPIRE is sent if
      there is one, the key expires, and the caller enters. */
  lemma SomeoneEnters(s: System, c: nat, p: Policy) returns (actions: seq<Action>)
    requires p.max >= 1 && c !in s.callers && (s.key.Present? ==> s.key.count >= 1)
    requires !(Stuck(s) && s.key.count >= p.max)
    ensures c in PrimaryAdmitted(Run(s, actions, p))
  {
    if s.key.Absent? || s.key.count < p.max {
      actions := Enter(c);
      Enters(s, c, p);
    } else if s.key.expiresAt.Some? {
      actions := EntersAfterExpiry(s, c, p);
    } else {
      var d :| d in s.callers && s.callers[d].SetExpiry?;
      var t := Step(s, PExpire(d, Ok), p);
      RunOne(s, PExpire(d, Ok), p);
      var rest := EntersAfterExpiry(t, c, p);
      actions := [PExpire(d, Ok)] + rest;
      RunAppend(s, [PExpire(d, Ok)], rest, p);
    }
  }

  lemma EntersAfterExpiry(s: System, c: nat, p: Policy) returns (actions: seq<Action>)
    requires p.max >= 1 && c !in s.callers && s.key.Present? && s.key.expiresAt.Some?
    ensures c in PrimaryAdmitted(Run(s, actions, p))
  {
    var wait := [Tick(Later(s.clock, s.key.expiresAt.value)), Evict];
    ExpiresInTime(s, p);
    Enters(Run(s, wait, p), c, p);
    actions := wait + Enter(c);
    RunAppend(s, wait, Enter(c), p);
  }

  /** From s on, Redis admits no caller that has not started yet. */
  ghost predicate AdmitsNoNewcomer(s: System, p: Policy) {
    forall actions: seq<Action>, c: nat :: c in PrimaryAdmitted(Run(s, actions, p)) ==> c in s.callers
  }

  lemma NewCallerExists(callers: set<nat>) returns (c: nat)
    ensures c !in callers
  {
    c := BoundOf(callers);
    assert c in callers ==> c < c;
  }

  lemma {:induction false} BoundOf(callers: set<nat>) returns (n: nat)
    ensures forall c :: c in callers ==> c < n
  {
    if c :| c in callers {
      var m := BoundOf(callers - {c});
      n := if m <= c then c + 1 else m;
      forall d | d in callers ensures d < n {
        assert d == c || d in callers - {c};
      }
    } else {
      n := 0;
    }
  }

  lemma {:induction false} RedisInvOfRun(s: System, actions: seq<Action>, p: Policy)
    requires RedisInv(s, p)
    ensures RedisInv(Run(s, actions, p), p)
  {
    if |actions| > 0 {
      RedisInvOfRun(s, actions[..|actions| - 1], p);
      RedisStepInv(Run(s, actions[..|actions| - 1], p), actions[|actions| - 1], p);
    }
  }

  lemma NothingBelowOne(s: System, p: Policy)
    requires RedisInv(s, p) && p.max < 1
    ensures PrimaryAdmitted(s) == map[]
  {
    assert forall c :: c in PrimaryAdmitted(s) ==> TakeOk(s, s.callers[c].take);
  }

  /** The separate commands can leave a key that never expires. In every reachable state Redis will admit no
      newcomer any more exactly when the limit admits nobody, or the key has no expiry, nobody is about to set
      one, and it counts max calls. */
  lemma BlockedForeverIff(clock: int, actions: seq<Action>, p: Policy)
    ensures var s := Run(Initial(clock), actions, p);
      AdmitsNoNewcomer(s, p) <==> p.max < 1 || (Stuck(s) && s.key.count >= p.max)
  {
    RunInv(clock, actions, p);
    var s := Run(Initial(clock), actions, p);
    if p.max < 1 {
      forall more: seq<Action> ensures PrimaryAdmitted(Run(s, more, p)) == map[] {
        RedisInvOfRun(s, more, p);
        NothingBelowOne(Run(s, more, p), p);
      }
    } else if Stuck(s) && s.key.count >= p.max {
      forall more: seq<Action>, c: nat | c in PrimaryAdmitted(Run(s, more, p)) ensures c in s.callers {
        LostExpiryBlocks(s, more, p);
      }
    } else {
      var c := NewCallerExists(s.callers.Keys);
      var more := SomeoneEnters(s, c, p);
      assert c in PrimaryAdmitted(Run(s, more, p)) && c !in s.callers;
    }
  }

  /** The first caller's PEXPIRE is not executed; then n more callers come. */
  function LosingExpiry(n: nat): seq<Action> {
    if n == 0 then [Incr(0, Ok), PExpire(0, Refused)] else LosingExpiry(n - 1) + [Incr(n, Ok)]
  }

  ghost predicate Lost(s: System, n: nat) {
    s.key == Present(n + 1, None) && forall c :: c in s.callers ==> c <= n && !s.callers[c].SetExpiry?
  }

  lemma ExpiryLostAtOnce(clock: int, p: Policy)
    ensures Lost(Run(Initial(clock), LosingExpiry(0), p), 0)
  {
    RunOne(Initial(clock), Incr(0, Ok), p);
    RunAppend(Initial(clock), [Incr(0, Ok)], [PExpire(0, Refused)], p);
    RunOne(Run(Initial(clock), [Incr(0, Ok)], p), PExpire(0, Refused), p);
    assert [Incr(0, Ok)] + [PExpire(0, Refused)] == LosingExpiry(0);
  }

  lemma OneMoreCounts(s: System, n: nat, p: Policy)
    requires n > 0 && Lost(s, n - 1)
    ensures Lost(Step(s, Incr(n, Ok), p), n)
  {
  }

  lemma {:induction false} ExpiryLost(clock: int, n: nat, p: Policy)
    ensures Lost(Run(Initial(clock), LosingExpiry(n), p), n)
  {
    if n == 0 {
      ExpiryLostAtOnce(clock, p);
    } else {
      var s := Run(Initial(clock), LosingExpiry(n - 1), p);
      ExpiryLost(clock, n - 1, p);
      RunAppend(Initial(clock), LosingExpiry(n - 1), [Incr(n, Ok)], p);
      RunOne(s, Incr(n, Ok), p);
      OneMoreCounts(s, n, p);
    }
  }

  /** A key that blocks forever is reached under every policy. */
  lemma StuckReachable(clock: int, p: Policy)
    ensures var s := Run(Initial(clock), LosingExpiry(if p.max >= 1 then p.max - 1 else 0), p);
      Stuck(s) && s.key.count >= p.max && AdmitsNoNewcomer(s, p)
  {
    var n := if p.max >= 1 then p.max - 1 else 0;
    ExpiryLost(clock, n, p);
    BlockedForeverIff(clock, LosingExpiry(n), p);
  }

  /** The script never leaves such a key: in its runs a live key always has an expiry. */
  lemma {:induction false} ScriptKeyExpires(clock: int, actions: seq<Action>, p: Policy)
    requires forall i :: 0 <= i < |actions| ==>
      actions[i].Tick? || actions[i].Evict? || actions[i].Script? || actions[i].Fallback?
    ensures var s := Run(Initial(clock), actions, p);
            s.key.Present? ==> s.key.count >= 1 && s.key.expiresAt.Some?
  {
    if |actions| > 0 {
      ScriptKeyExpires(clock, actions[..|actions| - 1], p);
    }
  }
}
