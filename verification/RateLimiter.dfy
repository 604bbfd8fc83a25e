/**
 The per-licence refresh limiter: a fixed-window counter over a bounded, insertion-ordered map.
 The map is a list of entries with distinct keys, oldest first.
 */
module RateLimiter {
  import opened Common

  datatype Window = Window(count: int, resetAt: int)
  datatype Entry = Entry(key: string, window: Window)
  datatype Config = Config(windowMs: int, limit: int, maxKeys: int)
  datatype Attempt = Attempt(key: string, now: int)

  predicate Usable(cfg: Config) {
    cfg.windowMs > 0 && cfg.limit > 0 && cfg.maxKeys > 0
  }

  // ---- The ordered map -----------------------------------------------------

  function Get(es: seq<Entry>, key: string): Option<Window> {
    if es == [] then None
    else if es[0].key == key then Some(es[0].window)
    else Get(es[1..], key)
  }

  function Delete(es: seq<Entry>, key: string): seq<Entry> {
    if es == [] then []
    else if es[0].key == key then es[1..]
    else [es[0]] + Delete(es[1..], key)
  }

  /** Overwrites the window of a present key where it stands. */
  function Replace(es: seq<Entry>, key: string, w: Window): seq<Entry> {
    if es == [] then []
    else if es[0].key == key then [Entry(key, w)] + es[1..]
    else [es[0]] + Replace(es[1..], key, w)
  }

  function Keys(es: seq<Entry>): set<string> {
    set e | e in es :: e.key
  }

  // ---- Bounded and unbounded limiter ---------------------------------------

  predicate Opens(w: Option<Window>, now: int) {
    w.None? || now >= w.value.resetAt
  }

  function Allow(es: seq<Entry>, cfg: Config, a: Attempt): (seq<Entry>, bool) {
    var w := Get(es, a.key);
    if Opens(w, a.now) then
      var kept := if |es| >= cfg.maxKeys && es != [] then es[1..] else es;
      (Delete(kept, a.key) + [Entry(a.key, Window(1, a.now + cfg.windowMs))], true)
    else if w.value.count >= cfg.limit then (es, false)
    else (Replace(es, a.key, w.value.(count := w.value.count + 1)), true)
  }

  function Remembered(m: map<string, Window>, key: string): Option<Window> {
    if key in m then Some(m[key]) else None
  }

  /** The same limiter with a map that never forgets. */
  function AllowUnbounded(m: map<string, Window>, cfg: Config, a: Attempt): (map<string, Window>, bool) {
    var w := Remembered(m, a.key);
    if Opens(w, a.now) then (m[a.key := Window(1, a.now + cfg.windowMs)], true)
    else if w.value.count >= cfg.limit then (m, false)
    else (m[a.key := w.value.(count := w.value.count + 1)], true)
  }

  function Decisions(es: seq<Entry>, cfg: Config, run: seq<Attempt>): (d: seq<bool>)
    ensures |d| == |run|
    decreases |run|
  {
    if run == [] then []
    else
      var (after, ok) := Allow(es, cfg, run[0]);
      [ok] + Decisions(after, cfg, run[1..])
  }

  function DecisionsUnbounded(m: map<string, Window>, cfg: Config, run: seq<Attempt>): (d: seq<bool>)
    ensures |d| == |run|
    decreases |run|
  {
    if run == [] then []
    else
      var (after, ok) := AllowUnbounded(m, cfg, run[0]);
      [ok] + DecisionsUnbounded(after, cfg, run[1..])
  }

  class RefreshRateLimiter {
    var windows: seq<Entry>
    const cfg: Config

    /** Configured values that are not positive fall back to five refreshes an hour. */
    constructor (windowMs: int, limit: int)
      ensures windows == [] && Usable(cfg) && cfg.maxKeys == 50_000
      ensures cfg.windowMs == (if windowMs > 0 then windowMs else 3_600_000)
      ensures cfg.limit == if limit > 0 then limit else 5
    {
      windows := [];
      cfg := Config(if windowMs > 0 then windowMs else 3_600_000, if limit > 0 then limit else 5, 50_000);
    }

    method TryRefresh(key: string, now: int) returns (ok: bool)
      modifies this
      ensures (windows, ok) == Allow(old(windows), cfg, Attempt(key, now))
    {
      var w := Get(windows, key);
      if w.None? || now >= w.value.resetAt {
        if |windows| >= cfg.maxKeys && windows != [] {
          windows := windows[1..];
        }
        windows := Delete(windows, key);
        windows := windows + [Entry(key, Window(1, now + cfg.windowMs))];
        return true;
      }
      if w.value.count >= cfg.limit {
        return false;
      }
      windows := Replace(windows, key, Window(w.value.count + 1, w.value.resetAt));
      ok := true;
    }
  }

  // ---- The invariant of the ordered map ------------------------------------

  ghost predicate DistinctKeys(es: seq<Entry>) {
    forall i, j | 0 <= i < j < |es| :: es[i].key != es[j].key
  }

  ghost predicate SortedByReset(es: seq<Entry>) {
    forall i, j | 0 <= i < j < |es| :: es[i].window.resetAt <= es[j].window.resetAt
  }

  /** Distinct keys in order of reset time, none further ahead than one window from the last call. */
  ghost predicate Valid(es: seq<Entry>, cfg: Config, last: int) {
    && DistinctKeys(es) && SortedByReset(es) && |es| <= cfg.maxKeys
    && forall e | e in es :: e.window.resetAt <= last + cfg.windowMs
  }

  lemma {:induction false} GetIsMembership(es: seq<Entry>, key: string)
    ensures Get(es, key).Some? <==> key in Keys(es)
    ensures Get(es, key).Some? ==> Entry(key, Get(es, key).value) in es
  {
    if es != [] {
      GetIsMembership(es[1..], key);
      assert es == [es[0]] + es[1..];
    }
  }

  lemma ConsRemove(es: seq<Entry>, j: nat)
    requires j + 1 < |es|
    ensures [es[0]] + (es[1..][..j] + es[1..][j + 1..]) == es[..j + 1] + es[j + 2..]
  {
  }

  lemma {:induction false} DeleteShape(es: seq<Entry>, key: string) returns (i: nat)
    ensures Get(es, key).None? ==> Delete(es, key) == es
    ensures Get(es, key).Some? ==> i < |es| && es[i].key == key && Delete(es, key) == es[..i] + es[i + 1..]
  {
    i := 0;
    if es != [] && es[0].key != key {
      var rest := es[1..];
      var j := DeleteShape(rest, key);
      i := j + 1;
      if Get(rest, key).Some? {
        ConsRemove(es, j);
      } else {
        assert es == [es[0]] + rest;
      }
    }
  }

  lemma DeleteFacts(es: seq<Entry>, key: string)
    requires DistinctKeys(es)
    ensures forall e | e in Delete(es, key) :: e in es && e.key != key
    ensures DistinctKeys(Delete(es, key)) && (SortedByReset(es) ==> SortedByReset(Delete(es, key)))
    ensures |Delete(es, key)| <= |es|
  {
    hide Delete, Get;
    var i := DeleteShape(es, key);
    if Get(es, key).None? {
      AbsentKey(es, key);
    } else {
      RemovalFacts(es, i);
    }
  }

  lemma AbsentKey(es: seq<Entry>, key: string)
    requires Get(es, key).None?
    ensures forall e | e in es :: e.key != key
  {
  }

  lemma RemovalFacts(es: seq<Entry>, i: nat)
    requires DistinctKeys(es) && i < |es|
    ensures var d := es[..i] + es[i + 1..];
            && DistinctKeys(d) && (SortedByReset(es) ==> SortedByReset(d))
            && forall e | e in d :: e in es && e.key != es[i].key
  {
  }

  lemma {:induction false} GetAfterDelete(es: seq<Entry>, key: string, k: string)
    requires DistinctKeys(es)
    ensures Get(Delete(es, key), k) == if k == key then None else Get(es, k)
  {
    if es != [] {
      var rest := es[1..];
      assert forall e | e in rest :: e.key != es[0].key;
      if es[0].key == key {
        GetIsMembership(rest, key);
      } else {
        GetAfterDelete(rest, key, k);
        assert ([es[0]] + Delete(rest, key))[1..] == Delete(rest, key);
      }
    }
  }

  lemma {:induction false} ReplaceFacts(es: seq<Entry>, key: string, w: Window)
    requires Get(es, key).Some? && Get(es, key).value.resetAt == w.resetAt
    ensures |Replace(es, key, w)| == |es|
    ensures forall i | 0 <= i < |es| ::
              Replace(es, key, w)[i].key == es[i].key
              && Replace(es, key, w)[i].window.resetAt == es[i].window.resetAt
    ensures forall k :: Get(Replace(es, key, w), k) == if k == key then Some(w) else Get(es, k)
  {
    var r := Replace(es, key, w);
    if es[0].key == key {
      assert r[1..] == es[1..];
    } else {
      ReplaceFacts(es[1..], key, w);
      assert r[1..] == Replace(es[1..], key, w);
    }
  }

  lemma {:induction false} GetAppended(es: seq<Entry>, e: Entry, k: string)
    requires Get(es, e.key).None?
    ensures Get(es + [e], k) == if k == e.key then Some(e.window) else Get(es, k)
  {
    if es != [] {
      GetAppended(es[1..], e, k);
      assert (es + [e])[1..] == es[1..] + [e];
    } else {
      assert [] + [e] == [e] && [e][1..] == [];
    }
  }

  function Kept(es: seq<Entry>, cfg: Config): seq<Entry> {
    if |es| >= cfg.maxKeys && es != [] then es[1..] else es
  }

  lemma KeptFacts(es: seq<Entry>, cfg: Config, last: int)
    requires Valid(es, cfg, last) && Usable(cfg)
    ensures Valid(Kept(es, cfg), cfg, last) && |Kept(es, cfg)| < cfg.maxKeys
    ensures forall k :: Get(Kept(es, cfg), k) ==
                        if |es| >= cfg.maxKeys && k == es[0].key then None else Get(es, k)
    ensures |es| >= cfg.maxKeys ==> Get(es, es[0].key) == Some(es[0].window)
  {
    if |es| >= cfg.maxKeys {
      var rest := es[1..];
      assert forall e | e in rest :: e in es && e.key != es[0].key;
      GetIsMembership(rest, es[0].key);
    }
  }

  /** Insertion order stays reset order, and the map never outgrows its bound. */
  lemma AllowKeepsValid(es: seq<Entry>, cfg: Config, last: int, a: Attempt)
    requires Valid(es, cfg, last) && Usable(cfg) && last <= a.now
    ensures Valid(Allow(es, cfg, a).0, cfg, a.now)
  {
    hide Get, Delete, Replace;
    var w := Get(es, a.key);
    if Opens(w, a.now) {
      var kept := Kept(es, cfg);
      KeptFacts(es, cfg, last);
      DeleteFacts(kept, a.key);
      assert forall e | e in Delete(kept, a.key) :: e in kept;
    } else if w.value.count < cfg.limit {
      var counted := w.value.(count := w.value.count + 1);
      ReplaceFacts(es, a.key, counted);
      var r := Replace(es, a.key, counted);
      forall e | e in r ensures e.window.resetAt <= a.now + cfg.windowMs {
        var i :| 0 <= i < |r| && r[i] == e;
        assert es[i] in es;
      }
    }
  }

  // ---- Forgetting nothing that matters -------------------------------------

  /** The call pushes out the window of another key while that window still runs. */
  predicate EvictsLive(es: seq<Entry>, cfg: Config, a: Attempt, key: string) {
    && Opens(Get(es, a.key), a.now)
    && |es| >= cfg.maxKeys && es != [] && es[0].key == key
    && key != a.key && a.now < es[0].window.resetAt
  }

  /** A live window is pushed out only behind a full map of windows opened no earlier. */
  lemma LiveEvictionNeedsFullMap(es: seq<Entry>, cfg: Config, last: int, a: Attempt, key: string)
    requires Valid(es, cfg, last) && EvictsLive(es, cfg, a, key)
    ensures key !in Keys(es[1..]) && |Keys(es[1..])| >= cfg.maxKeys - 1
    ensures forall e | e in es[1..] :: es[0].window.resetAt <= e.window.resetAt
  {
    KeysAreDistinct(es[1..]);
  }

  lemma {:induction false} KeysAreDistinct(es: seq<Entry>)
    requires DistinctKeys(es)
    ensures |Keys(es)| == |es|
  {
    if es != [] {
      var rest := es[1..];
      assert es == [es[0]] + rest;
      KeysAreDistinct(rest);
      assert Keys(es) == {es[0].key} + Keys(rest);
    }
  }

  /** The bounded map remembers a key's window as the unbounded one does, or it has already run out. */
  ghost predicate Tracks(es: seq<Entry>, m: map<string, Window>, last: int, key: string) {
    match Get(es, key)
    case Some(w) => key in m && m[key] == w
    case None => key in m ==> m[key].resetAt <= last
  }

  lemma StepTracks(es: seq<Entry>, m: map<string, Window>, cfg: Config, last: int, a: Attempt, key: string)
    requires Valid(es, cfg, last) && Usable(cfg) && last <= a.now
    requires Tracks(es, m, last, key) && !EvictsLive(es, cfg, a, key)
    ensures Tracks(Allow(es, cfg, a).0, AllowUnbounded(m, cfg, a).0, a.now, key)
    ensures key == a.key ==> Allow(es, cfg, a).1 == AllowUnbounded(m, cfg, a).1
  {
    hide Get, Delete, Replace, DistinctKeys, SortedByReset;
    var w := Get(es, a.key);
    if Opens(w, a.now) {
      var kept := Kept(es, cfg);
      KeptFacts(es, cfg, last);
      GetAfterDelete(kept, a.key, a.key);
      GetAfterDelete(kept, a.key, key);
      GetAppended(Delete(kept, a.key), Entry(a.key, Window(1, a.now + cfg.windowMs)), key);
    } else if w.value.count < cfg.limit {
      ReplaceFacts(es, a.key, w.value.(count := w.value.count + 1));
    }
  }

  ghost predicate Ordered(run: seq<Attempt>, last: int) {
    run == [] || (last <= run[0].now && Ordered(run[1..], run[0].now))
  }

  ghost predicate NeverEvictedLive(es: seq<Entry>, cfg: Config, run: seq<Attempt>, key: string)
    decreases |run|
  {
    run == [] ||
    (!EvictsLive(es, cfg, run[0], key) && NeverEvictedLive(Allow(es, cfg, run[0]).0, cfg, run[1..], key))
  }

  /** With no more keys than the map holds, whatever it evicts has already run out. */
  lemma FewKeysEvictNothingLive(es: seq<Entry>, cfg: Config, last: int, a: Attempt, keys: set<string>, key: string)
    requires Valid(es, cfg, last) && |keys| <= cfg.maxKeys
    requires Keys(es) <= keys && a.key in keys
    ensures !EvictsLive(es, cfg, a, key)
  {
    if EvictsLive(es, cfg, a, key) {
      KeysAreDistinct(es);
      FullSubset(Keys(es), keys);
      GetIsMembership(es, a.key);
    }
  }

  lemma {:induction false} FullSubset(small: set<string>, big: set<string>)
    requires small <= big && |big| <= |small|
    ensures small == big
  {
    assert big == small + (big - small);
  }

  lemma AllowKeepsKeys(es: seq<Entry>, cfg: Config, last: int, a: Attempt)
    requires Valid(es, cfg, last) && Usable(cfg)
    ensures Keys(Allow(es, cfg, a).0) <= Keys(es) + {a.key}
  {
    var w := Get(es, a.key);
    if Opens(w, a.now) {
      KeptFacts(es, cfg, last);
      DeleteFacts(Kept(es, cfg), a.key);
      assert forall e | e in Kept(es, cfg) :: e in es;
    } else if w.value.count < cfg.limit {
      var counted := w.value.(count := w.value.count + 1);
      ReplaceFacts(es, a.key, counted);
      var r := Replace(es, a.key, counted);
      forall e | e in r ensures e.key in Keys(es) {
        var i :| 0 <= i < |r| && r[i] == e;
        assert es[i] in es;
      }
    }
  }

  lemma {:induction false} FewKeysAgree(
    es: seq<Entry>, m: map<string, Window>, cfg: Config, run: seq<Attempt>, keys: set<string>, last: int)
    requires Valid(es, cfg, last) && Usable(cfg) && Ordered(run, last)
    requires |keys| <= cfg.maxKeys && Keys(es) <= keys && forall a | a in run :: a.key in keys
    requires forall k | k in keys :: Tracks(es, m, last, k)
    ensures Decisions(es, cfg, run) == DecisionsUnbounded(m, cfg, run)
    decreases |run|
  {
    hide Valid, Tracks, Allow, AllowUnbounded, EvictsLive;
    if run != [] {
      var a := run[0];
      forall k | k in keys
        ensures Tracks(Allow(es, cfg, a).0, AllowUnbounded(m, cfg, a).0, a.now, k)
        ensures k == a.key ==> Allow(es, cfg, a).1 == AllowUnbounded(m, cfg, a).1
      {
        FewKeysEvictNothingLive(es, cfg, last, a, keys, k);
        StepTracks(es, m, cfg, last, a, k);
      }
      AllowKeepsValid(es, cfg, last, a);
      AllowKeepsKeys(es, cfg, last, a);
      FewKeysAgree(Allow(es, cfg, a).0, AllowUnbounded(m, cfg, a).0, cfg, run[1..], keys, a.now);
    }
  }

  /** On a run over at most `maxKeys` keys the bounded limiter decides exactly as one that never forgets. */
  lemma BoundedEqualsUnbounded(cfg: Config, run: seq<Attempt>, keys: set<string>, start: int)
    requires Usable(cfg) && Ordered(run, start)
    requires |keys| <= cfg.maxKeys && forall a | a in run :: a.key in keys
    ensures Decisions([], cfg, run) == DecisionsUnbounded(map[], cfg, run)
  {
    FewKeysAgree([], map[], cfg, run, keys, start);
  }

  // ---- How many calls any interval lets through ----------------------------

  /** Allowed calls of one key at times from `from` up to but not including `to`. */
  function AllowedIn(run: seq<Attempt>, decisions: seq<bool>, key: string, from: int, to: int): nat
    requires |run| == |decisions|
  {
    if run == [] then 0
    else
      (if decisions[0] && run[0].key == key && from <= run[0].now < to then 1 else 0)
      + AllowedIn(run[1..], decisions[1..], key, from, to)
  }

  /** The most calls of one key that any interval of one window's length lets through. */
  function MostInWindow(cfg: Config): int {
    if cfg.windowMs == 1 then cfg.limit else 2 * cfg.limit - 1
  }

  /**
   What `counted` allowed calls since `from` say about the key's window: the calls counted lie in the
   window it is in, or in that one and the single window before it.
   */
  ghost predicate Accounted(m: map<string, Window>, cfg: Config, key: string, from: int, counted: nat, last: int) {
    && (last < from ==> counted == 0)
    && (key !in m ==> counted == 0)
    && (key in m ==>
          var w := m[key];
          var begun := w.resetAt - cfg.windowMs;
          && 1 <= w.count <= cfg.limit && begun <= last
          && (begun < from ==> counted <= w.count - 1)
          && (from <= begun < from + cfg.windowMs ==> counted <= cfg.limit - 1 + w.count)
          && (cfg.windowMs == 1 && begun == from ==> counted <= w.count)
          && (cfg.windowMs == 1 && begun < from ==> counted == 0)
          && counted <= MostInWindow(cfg))
  }

  lemma StepAccounted(m: map<string, Window>, cfg: Config, key: string, from: int, counted: nat, last: int, a: Attempt)
    requires Usable(cfg) && last <= a.now && Accounted(m, cfg, key, from, counted, last)
    ensures var (after, ok) := AllowUnbounded(m, cfg, a);
            var more := if ok && a.key == key && from <= a.now < from + cfg.windowMs then 1 else 0;
            Accounted(after, cfg, key, from, counted + more, a.now)
  {
  }

  lemma {:induction false} UnboundedInterval(
    m: map<string, Window>, cfg: Config, run: seq<Attempt>, key: string, from: int, counted: nat, last: int)
    requires Usable(cfg) && Ordered(run, last) && Accounted(m, cfg, key, from, counted, last)
    ensures counted + AllowedIn(run, DecisionsUnbounded(m, cfg, run), key, from,
                                from + cfg.windowMs) <= MostInWindow(cfg)
    decreases |run|
  {
    if run != [] {
      hide AllowUnbounded;
      var a := run[0];
      StepAccounted(m, cfg, key, from, counted, last, a);
      var (after, ok) := AllowUnbounded(m, cfg, a);
      var more := if ok && a.key == key && from <= a.now < from + cfg.windowMs then 1 else 0;
      UnboundedInterval(after, cfg, run[1..], key, from, counted + more, a.now);
    }
  }

  lemma {:induction false} SameCounts(
    es: seq<Entry>, m: map<string, Window>, cfg: Config, run: seq<Attempt>, key: string, from: int, to: int, last: int)
    requires Valid(es, cfg, last) && Usable(cfg) && Ordered(run, last)
    requires Tracks(es, m, last, key) && NeverEvictedLive(es, cfg, run, key)
    ensures AllowedIn(run, Decisions(es, cfg, run), key, from, to)
            == AllowedIn(run, DecisionsUnbounded(m, cfg, run), key, from, to)
    decreases |run|
  {
    hide Valid, Tracks, Allow, AllowUnbounded, EvictsLive;
    if run != [] {
      var a := run[0];
      AllowKeepsValid(es, cfg, last, a);
      StepTracks(es, m, cfg, last, a, key);
      SameCounts(Allow(es, cfg, a).0, AllowUnbounded(m, cfg, a).0, cfg, run[1..], key, from, to, a.now);
    }
  }

  /**
   Over any number of keys, no half-open interval of one window's length lets more than 2 * limit - 1
   calls of a key through, or `limit` where a window is a single millisecond, as long as the key is not
   pushed out while its window runs.
   */
  lemma IntervalBound(cfg: Config, run: seq<Attempt>, key: string, from: int, start: int)
    requires Usable(cfg) && Ordered(run, start) && NeverEvictedLive([], cfg, run, key)
    ensures AllowedIn(run, Decisions([], cfg, run), key, from, from + cfg.windowMs) <= MostInWindow(cfg)
  {
    SameCounts([], map[], cfg, run, key, from, from + cfg.windowMs, start);
    UnboundedInterval(map[], cfg, run, key, from, 0, start);
  }

  function Burst(a: Attempt, n: nat): seq<Attempt> {
    if n == 0 then [] else [a] + Burst(a, n - 1)
  }

  /** One call, as many as still fit just before its window ends, and a full window right after it. */
  function Peak(cfg: Config, key: string): seq<Attempt>
    requires Usable(cfg)
  {
    if cfg.windowMs == 1 then Burst(Attempt(key, 0), cfg.limit)
    else [Attempt(key, 0)] + (Burst(Attempt(key, cfg.windowMs - 1), cfg.limit - 1)
                              + Burst(Attempt(key, cfg.windowMs), cfg.limit))
  }

  function Passed(es: seq<Entry>, cfg: Config, run: seq<Attempt>, key: string, from: int): nat {
    AllowedIn(run, Decisions(es, cfg, run), key, from, from + cfg.windowMs)
  }

  lemma OneKeyStep(cfg: Config, a: Attempt, es: seq<Entry>, w: Window)
    requires Usable(cfg) && (es == [] || es == [Entry(a.key, es[0].window)])
    requires w == if es == [] || a.now >= es[0].window.resetAt then Window(1, a.now + cfg.windowMs)
                  else es[0].window.(count := es[0].window.count + 1)
    requires es == [] || a.now >= es[0].window.resetAt || es[0].window.count < cfg.limit
    ensures Allow(es, cfg, a) == ([Entry(a.key, w)], true)
  {
    if es != [] {
      assert es[1..] == [];
    }
    assert Allow(es, cfg, a).0 == [Entry(a.key, w)];
  }

  lemma PassedStep(es: seq<Entry>, cfg: Config, a: Attempt, rest: seq<Attempt>, from: int, w: Window)
    requires Usable(cfg) && Allow(es, cfg, a) == ([Entry(a.key, w)], true)
    ensures Passed(es, cfg, [a] + rest, a.key, from)
            == (if from <= a.now < from + cfg.windowMs then 1 else 0)
               + Passed([Entry(a.key, w)], cfg, rest, a.key, from)
  {
    hide Allow;
    var run := [a] + rest;
    assert run[1..] == rest;
    assert Decisions(es, cfg, run)[1..] == Decisions([Entry(a.key, w)], cfg, rest);
  }

  lemma {:induction false} BurstPasses(w: Window, cfg: Config, a: Attempt, n: nat, rest: seq<Attempt>, from: int)
    requires Usable(cfg) && a.now < w.resetAt && w.count + n <= cfg.limit
    ensures Passed([Entry(a.key, w)], cfg, Burst(a, n) + rest, a.key, from)
            == (if from <= a.now < from + cfg.windowMs then n else 0)
               + Passed([Entry(a.key, w.(count := w.count + n))], cfg, rest, a.key, from)
    decreases n
  {
    hide Allow, Passed;
    if n == 0 {
      assert Burst(a, n) + rest == rest;
    } else {
      var next := w.(count := w.count + 1);
      assert Burst(a, n) + rest == [a] + (Burst(a, n - 1) + rest);
      OneKeyStep(cfg, a, [Entry(a.key, w)], next);
      PassedStep([Entry(a.key, w)], cfg, a, Burst(a, n - 1) + rest, from, next);
      BurstPasses(next, cfg, a, n - 1, rest, from);
    }
  }

  /** A whole burst from where a new window opens. */
  lemma FullWindowPasses(es: seq<Entry>, cfg: Config, a: Attempt, from: int)
    requires Usable(cfg) && (es == [] || (es == [Entry(a.key, es[0].window)] && a.now >= es[0].window.resetAt))
    requires from <= a.now < from + cfg.windowMs
    ensures Passed(es, cfg, Burst(a, cfg.limit), a.key, from) == cfg.limit
  {
    hide Allow;
    var w := Window(1, a.now + cfg.windowMs);
    OneKeyStep(cfg, a, es, w);
    PassedStep(es, cfg, a, Burst(a, cfg.limit - 1), from, w);
    BurstPasses(w, cfg, a, cfg.limit - 1, [], from);
    assert Burst(a, cfg.limit - 1) + [] == Burst(a, cfg.limit - 1);
  }

  lemma {:induction false} BurstRuns(a: Attempt, n: nat, rest: seq<Attempt>, last: int)
    requires last <= a.now && Ordered(rest, a.now) && forall b | b in rest :: b.key == a.key
    ensures Ordered(Burst(a, n) + rest, last) && forall b | b in Burst(a, n) + rest :: b.key == a.key
  {
    if n == 0 {
      assert Burst(a, n) + rest == rest;
    } else {
      BurstRuns(a, n - 1, rest, a.now);
      assert Burst(a, n) + rest == [a] + (Burst(a, n - 1) + rest);
      assert ([a] + (Burst(a, n - 1) + rest))[1..] == Burst(a, n - 1) + rest;
    }
  }

  lemma {:induction false} OwnCallsEvictNothing(es: seq<Entry>, cfg: Config, run: seq<Attempt>, key: string)
    requires forall b | b in run :: b.key == key
    ensures NeverEvictedLive(es, cfg, run, key)
    decreases |run|
  {
    if run != [] {
      OwnCallsEvictNothing(Allow(es, cfg, run[0]).0, cfg, run[1..], key);
    }
  }

  /** In every configuration the bound is reached, by a run of the one key in time order. */
  lemma IntervalBoundIsReached(cfg: Config, key: string)
    requires Usable(cfg)
    ensures var run := Peak(cfg, key);
            && Ordered(run, 0) && NeverEvictedLive([], cfg, run, key)
            && AllowedIn(run, Decisions([], cfg, run), key, cfg.windowMs - 1,
                         cfg.windowMs - 1 + cfg.windowMs) == MostInWindow(cfg)
  {
    hide Allow, Burst;
    var from, run := cfg.windowMs - 1, Peak(cfg, key);
    var last := Attempt(key, if cfg.windowMs == 1 then 0 else cfg.windowMs);
    var tail := Burst(last, cfg.limit);
    assert tail + [] == tail;
    BurstRuns(last, cfg.limit, [], 0);
    if cfg.windowMs == 1 {
      FullWindowPasses([], cfg, last, from);
    } else {
      var first, middle := Attempt(key, 0), Attempt(key, from);
      BurstRuns(last, cfg.limit, [], from);
      BurstRuns(middle, cfg.limit - 1, tail, 0);
      assert run[1..] == Burst(middle, cfg.limit - 1) + tail;
      OneKeyStep(cfg, first, [], Window(1, cfg.windowMs));
      PassedStep([], cfg, first, Burst(middle, cfg.limit - 1) + tail, from, Window(1, cfg.windowMs));
      BurstPasses(Window(1, cfg.windowMs), cfg, middle, cfg.limit - 1, tail, from);
      FullWindowPasses([Entry(key, Window(cfg.limit, cfg.windowMs))], cfg, last, from);
    }
    OwnCallsEvictNothing([], cfg, run, key);
  }
}
