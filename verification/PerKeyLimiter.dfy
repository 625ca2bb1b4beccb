/** One rate limiter per key, with two generations of keys. A limiter is named by the order in which it was made. */
module PerKeyLimiter {
  import opened Types

  const GC_INTERVAL := 60 * SECOND

  datatype Generations = Generations(previous: map<string, nat>, current: map<string, nat>, lastGC: int)

  /** A limiter is about to be made for a key that has none: the current generation becomes the previous one if it is
      time. */
  function Collected(g: Generations, now: int): Generations {
    if now - g.lastGC >= GC_INTERVAL then Generations(g.current, map[], now) else g
  }

  function Known(g: Generations, key: string): Option<nat> {
    if key in g.current then Some(g.current[key])
    else if key in g.previous then Some(g.previous[key])
    else None
  }

  /** A lookup of `key`; `made` is the limiter to use when the key has none. */
  function Looked(g: Generations, key: string, now: int, made: nat): Generations {
    if key in g.current then g
    else if key in g.previous then g.(current := g.current[key := g.previous[key]], previous := g.previous - {key})
    else var c := Collected(g, now); c.(current := c.current[key := made])
  }

  /** What a lookup does, by where the key is and, if it is nowhere, by whether a minute has passed since the last
      collection. */
  lemma LookedExactly(g: Generations, key: string, now: int, made: nat)
    ensures var g' := Looked(g, key, now, made);
      if key in g.current then g' == g
      else if key in g.previous then
        && g'.current == g.current[key := g.previous[key]] && g'.previous == g.previous - {key} && g'.lastGC == g.lastGC
      else if now < g.lastGC + 60_000_000_000 then
        && g'.current == g.current[key := made] && g'.previous == g.previous && g'.lastGC == g.lastGC
      else
        && g'.current == map[key := made] && g'.previous == g.current && g'.lastGC == now
  {
  }

  class PerKeyLimiter {
    var previous: map<string, nat>
    var current: map<string, nat>
    var lastGC: int
    var made: nat

    function View(): Generations reads this {
      Generations(previous, current, lastGC)
    }

    constructor (now: int)
      ensures View() == Generations(map[], map[], now) && made == 0
    {
      previous, current, lastGC, made := map[], map[], now, 0;
    }

    method GetLimiter(key: string, now: int) returns (limiter: nat)
      modifies this
      ensures View() == Looked(old(View()), key, now, old(made))
      ensures Known(old(View()), key) == if old(made) == made then Some(limiter) else None
      ensures key in current && current[key] == limiter
      ensures made == old(made) || (made == old(made) + 1 && limiter == old(made))
    {
      if key in current {
        return current[key];
      }
      limiter := LockedGet(key, now);
    }

    /** What runs under the write lock; another caller may have come first. */
    method LockedGet(key: string, now: int) returns (limiter: nat)
      modifies this
      ensures View() == Looked(old(View()), key, now, old(made))
      ensures Known(old(View()), key) == if old(made) == made then Some(limiter) else None
      ensures key in current && current[key] == limiter
      ensures made == old(made) || (made == old(made) + 1 && limiter == old(made))
    {
      if key in current {
        return current[key];
      }
      if key in previous {
        limiter := previous[key];
        current := current[key := limiter];
        previous := previous - {key};
        return;
      }
      if now - lastGC >= GC_INTERVAL {
        previous, current, lastGC := current, map[], now;
      }
      limiter := made;
      made := made + 1;
      current := current[key := limiter];
    }
  }

  /** The limiters and how many were made and collections done so far. */
  datatype World = World(g: Generations, made: nat, collections: nat, now: int)

  /** One lookup, at the time it returns: a hit under the read lock, or the section under the write lock. A lookup that
      misses under the read lock changes nothing until its write section, so every interleaving is a sequence of
      these. */
  datatype Step = Hit(key: string, at: int) | Write(key: string, at: int)

  predicate Enabled(w: World, s: Step) {
    w.now <= s.at && (s.Hit? ==> s.key in w.g.current)
  }

  predicate Collects(w: World, s: Step) {
    Known(w.g, s.key).None? && s.at - w.g.lastGC >= GC_INTERVAL
  }

  function Apply(w: World, s: Step): World {
    World(Looked(w.g, s.key, s.at, w.made), w.made + (if Known(w.g, s.key).None? then 1 else 0),
          w.collections + (if Collects(w, s) then 1 else 0), s.at)
  }

  /** What the lookup returns. */
  function Returned(w: World, s: Step): nat {
    if Known(w.g, s.key).Some? then Known(w.g, s.key).value else w.made
  }

  predicate Run(w: World, steps: seq<Step>, w': World)
    decreases |steps|
  {
    if steps == [] then w == w'
    else Enabled(w, steps[0]) && Run(Apply(w, steps[0]), steps[1..], w')
  }

  /** No key is in both generations, no limiter serves two keys, and limiters yet to be made are new. */
  ghost predicate Inv(w: World) {
    && w.g.current.Keys !! w.g.previous.Keys
    && (forall k :: Known(w.g, k).Some? ==> Known(w.g, k).value < w.made)
    && (forall k, k' :: Known(w.g, k).Some? && Known(w.g, k) == Known(w.g, k') ==> k == k')
    && w.g.lastGC <= w.now
  }

  lemma StepKeepsInv(w: World, s: Step)
    requires Inv(w) && Enabled(w, s)
    ensures Inv(Apply(w, s))
  {
    var w' := Apply(w, s);
    assert forall k :: Known(w'.g, k).Some? && k != s.key ==> Known(w'.g, k) == Known(w.g, k);
    assert Known(w'.g, s.key) == Some(Returned(w, s));
  }

  lemma {:induction false} RunKeepsInv(w: World, steps: seq<Step>, w': World)
    requires Inv(w) && Run(w, steps, w')
    ensures Inv(w') && w.now <= w'.now
    decreases |steps|
  {
    if steps != [] {
      StepKeepsInv(w, steps[0]);
      RunKeepsInv(Apply(w, steps[0]), steps[1..], w');
    }
  }

  /** Where a key stands after n collections since it was last looked up: in the current generation, in the previous
      one, gone. */
  ghost predicate Aged(g: Generations, key: string, limiter: nat, n: nat) {
    if n == 0 then key in g.current && g.current[key] == limiter
    else if n == 1 then key !in g.current && key in g.previous && g.previous[key] == limiter
    else key !in g.current && key !in g.previous
  }

  lemma {:induction false} UnusedKeyAges(w: World, steps: seq<Step>, w': World, key: string, limiter: nat, n: nat)
    requires Inv(w) && Run(w, steps, w') && Aged(w.g, key, limiter, n)
    requires forall s :: s in steps ==> s.key != key
    ensures w.collections <= w'.collections && Aged(w'.g, key, limiter, n + w'.collections - w.collections)
    decreases |steps|
  {
    if steps != [] {
      var w1 := Apply(w, steps[0]);
      assert steps[0] in steps && forall s :: s in steps[1..] ==> s in steps;
      StepKeepsInv(w, steps[0]);
      UnusedKeyAges(w1, steps[1..], w', key, limiter, n + w1.collections - w.collections);
    }
  }

  /** Between two lookups of a key with none in between, whatever the other callers do: the limiter is the same if and
      only if there was at most one collection. */
  lemma SameLimiterExactly(w: World, s: Step, steps: seq<Step>, w': World, s': Step)
    requires Inv(w) && Enabled(w, s) && Run(Apply(w, s), steps, w') && Enabled(w', s') && s.key == s'.key
    requires forall x :: x in steps ==> x.key != s.key
    ensures Returned(w, s) == Returned(w', s') <==> w'.collections - Apply(w, s).collections <= 1
  {
    var w1 := Apply(w, s);
    StepKeepsInv(w, s);
    UnusedKeyAges(w1, steps, w', s.key, Returned(w, s), 0);
    MadeGrows(w1, steps, w');
  }

  lemma {:induction false} MadeGrows(w: World, steps: seq<Step>, w': World)
    requires Run(w, steps, w')
    ensures w.made <= w'.made
    decreases |steps|
  {
    if steps != [] {
      MadeGrows(Apply(w, steps[0]), steps[1..], w');
    }
  }

  /** Every lookup of `key` along the run gets `limiter`. */
  ghost predicate KeepsReturning(w: World, steps: seq<Step>, key: string, limiter: nat)
    decreases |steps|
  {
    steps != [] ==>
      && (steps[0].key == key ==> Returned(w, steps[0]) == limiter)
      && KeepsReturning(Apply(w, steps[0]), steps[1..], key, limiter)
  }

  /** Under a monotone clock, every lookup of a key less than an interval after one of them gets the same limiter,
      however many lookups of this and other keys come in between. */
  lemma {:induction false} CloseLookupsAgree(w: World, s: Step, steps: seq<Step>, w': World)
    requires Inv(w) && Enabled(w, s) && Run(Apply(w, s), steps, w') && w'.now - s.at < GC_INTERVAL
    ensures KeepsReturning(Apply(w, s), steps, s.key, Returned(w, s))
  {
    StepKeepsInv(w, s);
    StaysKnown(Apply(w, s), steps, w', s.key, Returned(w, s), 0, s.at);
  }

  /** n counts the collections since `since`. */
  lemma {:induction false} StaysKnown(w: World, steps: seq<Step>, w': World, key: string, limiter: nat, n: nat,
                                      since: int)
    requires Inv(w) && Run(w, steps, w') && w'.now - since < GC_INTERVAL
    requires since <= w.now && n <= 1 && (n == 1 ==> since <= w.g.lastGC)
    requires if n == 0 then key in w.g.current && w.g.current[key] == limiter else Known(w.g, key) == Some(limiter)
    ensures KeepsReturning(w, steps, key, limiter)
    decreases |steps|
  {
    if steps != [] {
      var w1 := Apply(w, steps[0]);
      StepKeepsInv(w, steps[0]);
      RunKeepsInv(w1, steps[1..], w');
      StaysKnown(w1, steps[1..], w', key, limiter, if Collects(w, steps[0]) then 1 else n, since);
    }
  }

  /** Time alone reclaims nothing: however long a key was left alone and whatever other keys were looked up, a lookup
      finds the old limiter if there was no collection. Collections only happen when a limiter is made. */
  lemma IdleKeyIsKept(w: World, s: Step, steps: seq<Step>, w': World, idle: nat)
    requires Inv(w) && Enabled(w, s) && Run(Apply(w, s), steps, w') && w'.collections == Apply(w, s).collections
    ensures Enabled(w', Hit(s.key, w'.now + idle)) && Returned(w', Hit(s.key, w'.now + idle)) == Returned(w, s)
  {
    StepKeepsInv(w, s);
    StaysCurrent(Apply(w, s), steps, w', s.key);
  }

  lemma {:induction false} StaysCurrent(w: World, steps: seq<Step>, w': World, key: string)
    requires Inv(w) && Run(w, steps, w') && key in w.g.current
    ensures w.collections <= w'.collections
    ensures w'.collections == w.collections ==> key in w'.g.current && w'.g.current[key] == w.g.current[key]
    decreases |steps|
  {
    if steps != [] {
      StepKeepsInv(w, steps[0]);
      if Collects(w, steps[0]) {
        CollectionsGrow(Apply(w, steps[0]), steps[1..], w');
      } else {
        StaysCurrent(Apply(w, steps[0]), steps[1..], w', key);
      }
    }
  }

  lemma {:induction false} CollectionsGrow(w: World, steps: seq<Step>, w': World)
    requires Run(w, steps, w')
    ensures w.collections <= w'.collections
    decreases |steps|
  {
    if steps != [] {
      CollectionsGrow(Apply(w, steps[0]), steps[1..], w');
    }
  }
}
