/** A property whose updates form a linked list, and the streams that step through it. */
module Observer {
  import opened Types

  /** `closed` says whether the channel `done` has been closed. */
  class State<T> {
    const value: T
    var next: State?<T>
    var closed: bool

    constructor (value: T)
      ensures this.value == value && next == null && !closed
    {
      this.value, next, closed := value, null, false;
    }
  }

  /** Each state links to the next; the channel of every state but the last is closed. */
  ghost predicate Linked<T>(history: seq<State<T>>)
    reads set s | s in history
  {
    && (forall i, j :: 0 <= i < j < |history| ==> history[i] != history[j])
    && (forall i :: 0 <= i < |history| ==>
        && (history[i].next != null <==> i + 1 < |history|)
        && (i + 1 < |history| ==> history[i].next == history[i + 1])
        && (history[i].closed <==> i + 1 < |history|))
  }

  ghost function Values<T>(history: seq<State<T>>): seq<T> {
    seq(|history|, i requires 0 <= i < |history| => history[i].value)
  }

  class Property<T> {
    var state: State<T>
    /** Every state the property has had, oldest first. */
    ghost var history: seq<State<T>>

    ghost predicate Valid()
      reads this, set s | s in history
    {
      |history| > 0 && state == history[|history| - 1] && Linked(history)
    }

    constructor (value: T)
      ensures Valid() && Values(history) == [value]
    {
      state := new State(value);
      history := [state];
    }

    method Value() returns (value: T)
      requires Valid()
      ensures value == Values(history)[|history| - 1]
    {
      value := state.value;
    }

    /** Closes the channel of the state it replaces, which is still open: a second close would panic. */
    method Update(value: T)
      requires Valid()
      modifies this, state
      ensures Valid() && fresh(state) && history == old(history) + [state]
      ensures Values(history) == old(Values(history)) + [value]
    {
      var next := new State(value);
      assert forall i :: 0 <= i < |history| ==> history[i] != next;
      state.next := next;
      assert !state.closed;
      state.closed := true;
      state := next;
      history := history + [next];
    }

    method Observe() returns (stream: Stream<T>)
      requires Valid()
      ensures fresh(stream) && stream.property == this && stream.Valid() && stream.pos == |history| - 1
    {
      stream := new Stream(this, state, |history| - 1);
    }
  }

  class Stream<T> {
    const property: Property<T>
    var state: State<T>
    /** Where in the property's history the stream stands. */
    ghost var pos: nat

    ghost predicate Valid()
      reads this, property, set s | s in property.history
    {
      property.Valid() && pos < |property.history| && state == property.history[pos]
    }

    constructor (property: Property<T>, state: State<T>, ghost pos: nat)
      requires property.Valid() && pos < |property.history| && state == property.history[pos]
      ensures Valid() && this.property == property && this.pos == pos
    {
      this.property, this.state, this.pos := property, state, pos;
    }

    method Value() returns (value: T)
      requires Valid()
      ensures value == Values(property.history)[pos]
    {
      value := state.value;
    }

    /** Whether a receive from the channel Changes returns would go through. */
    method Changes() returns (closed: bool)
      requires Valid()
      ensures closed <==> pos + 1 < |property.history|
    {
      closed := state.closed;
    }

    method Next() returns (value: T)
      requires Valid()
      modifies this
      ensures Valid() && pos == Advanced(|property.history|, old(pos)) && value == Values(property.history)[pos]
    {
      if state.next != null {
        state := state.next;
        pos := pos + 1;
      }
      value := state.value;
    }

    /** From the moment the channel is closed. The value is always a new one. */
    method WaitNext() returns (value: T)
      requires Valid() && state.closed
      modifies this
      ensures Valid() && pos == old(pos) + 1 && value == Values(property.history)[pos]
    {
      value := Next();
    }

    method HasNext() returns (has: bool)
      requires Valid()
      ensures has <==> pos + 1 < |property.history|
      ensures has <==> state.closed
    {
      has := state.next != null;
    }

    method Clone() returns (stream: Stream<T>)
      requires Valid()
      ensures fresh(stream) && stream.property == property && stream.Valid() && stream.pos == pos
    {
      stream := new Stream(property, state, pos);
    }
  }

  /** An update leaves every stream where it was. */
  twostate lemma UpdateKeepsStream<T>(p: Property<T>, s: Stream<T>)
    requires s.property == p && old(s.Valid()) && p.Valid() && unchanged(s)
    requires |p.history| > |old(p.history)| && p.history[..|old(p.history)|] == old(p.history)
    ensures s.Valid() && s.pos + 1 < |p.history|
  {
  }

  /** Where Next takes a stream that stands at `pos` of a history of `length` states. */
  function Advanced(length: nat, pos: nat): nat {
    if pos + 1 < length then pos + 1 else pos
  }

  /** A stream that started at `start`, stands at `pos` and has stepped through `seen`. */
  datatype Cursor<T> = Cursor(start: nat, pos: nat, seen: seq<T>)

  datatype World<T> = World(history: seq<T>, streams: map<nat, Cursor<T>>)

  /** What the methods do, one at a time under the property's mutex. */
  datatype Step<T> = Update(value: T) | Observe(id: nat) | Next(id: nat) | Clone(from: nat, id: nat)

  predicate Enabled<T>(w: World<T>, s: Step<T>) {
    match s
    case Update(_) => true
    case Observe(id) => id !in w.streams && w.history != []
    case Next(id) => id in w.streams && w.streams[id].pos < |w.history|
    case Clone(from, id) => from in w.streams && w.streams[from].pos < |w.history| && id !in w.streams
  }

  function Apply<T>(w: World<T>, s: Step<T>): World<T>
    requires Enabled(w, s)
  {
    match s
    case Update(value) => w.(history := w.history + [value])
    case Observe(id) => var head := |w.history| - 1;
        w.(streams := w.streams[id := Cursor(head, head, [w.history[head]])])
    case Next(id) =>
      var c := w.streams[id];
      var pos := Advanced(|w.history|, c.pos);
      w.(streams := w.streams[id := Cursor(c.start, pos, if pos == c.pos then c.seen else c.seen + [w.history[pos]])])
    case Clone(from, id) =>
      var pos := w.streams[from].pos;
      w.(streams := w.streams[id := Cursor(pos, pos, [w.history[pos]])])
  }

  predicate Run<T(==)>(w: World<T>, steps: seq<Step<T>>, w': World<T>)
    decreases |steps|
  {
    if steps == [] then w == w'
    else Enabled(w, steps[0]) && Run(Apply(w, steps[0]), steps[1..], w')
  }

  ghost predicate Contiguous<T>(history: seq<T>, c: Cursor<T>) {
    c.start <= c.pos < |history| && c.seen == history[c.start..c.pos + 1]
  }

  lemma StaysContiguous<T>(history: seq<T>, value: T, c: Cursor<T>)
    requires Contiguous(history, c)
    ensures Contiguous(history + [value], c)
  {
    assert (history + [value])[c.start..c.pos + 1] == history[c.start..c.pos + 1];
  }

  lemma AdvancesContiguously<T>(history: seq<T>, c: Cursor<T>)
    requires Contiguous(history, c) && c.pos + 1 < |history|
    ensures Contiguous(history, Cursor(c.start, c.pos + 1, c.seen + [history[c.pos + 1]]))
  {
    assert history[c.start..c.pos + 2] == history[c.start..c.pos + 1] + [history[c.pos + 1]];
  }

  ghost predicate Inv<T>(w: World<T>) {
    w.history != [] && forall id :: id in w.streams ==> Contiguous(w.history, w.streams[id])
  }

  lemma StepKeepsInv<T>(w: World<T>, s: Step<T>)
    requires Inv(w) && Enabled(w, s)
    ensures Inv(Apply(w, s))
  {
    match s
    case Update(value) =>
      forall id | id in w.streams ensures Contiguous(w.history + [value], w.streams[id]) {
        StaysContiguous(w.history, value, w.streams[id]);
      }
    case Next(id) =>
      if w.streams[id].pos + 1 < |w.history| {
        AdvancesContiguously(w.history, w.streams[id]);
      }
    case _ =>
  }

  /** For any number of streams and updates: what a stream has stepped through is the part of the history from where it
      began to where it stands, none skipped, none twice; the history itself is never rewritten and no stream moves
      back. */
  lemma {:induction false} EveryRunIsContiguous<T>(w: World<T>, steps: seq<Step<T>>, w': World<T>)
    requires Inv(w) && Run(w, steps, w')
    ensures Inv(w') && |w.history| <= |w'.history| && w'.history[..|w.history|] == w.history
    ensures forall id :: id in w.streams ==>
      id in w'.streams && w'.streams[id].start == w.streams[id].start && w.streams[id].pos <= w'.streams[id].pos
    decreases |steps|
  {
    if steps != [] {
      StepKeepsInv(w, steps[0]);
      EveryRunIsContiguous(Apply(w, steps[0]), steps[1..], w');
    }
  }

  function Nexts<T>(id: nat, n: nat): seq<Step<T>> {
    seq(n, _ => Next(id))
  }

  lemma NextAdvances<T>(w: World<T>, id: nat)
    requires Inv(w) && id in w.streams && w.streams[id].pos + 1 < |w.history|
    ensures Enabled(w, Next(id)) && Inv(Apply(w, Next(id)))
    ensures var w1 := Apply(w, Next(id));
            w1.history == w.history && id in w1.streams && w1.streams[id].start == w.streams[id].start
            && w1.streams[id].pos == w.streams[id].pos + 1
  {
    StepKeepsInv(w, Next(id));
  }

  /** A stream that keeps stepping while it is behind has then seen everything since it began. */
  lemma {:induction false} CatchingUpSeesAll<T>(w: World<T>, id: nat, n: nat) returns (w': World<T>)
    requires Inv(w) && id in w.streams && w.streams[id].pos + 1 + n == |w.history|
    ensures Run(w, Nexts(id, n), w')
    ensures w'.history == w.history && id in w'.streams && w'.streams[id].seen == w.history[w.streams[id].start..]
    decreases n
  {
    if n == 0 {
      assert Contiguous(w.history, w.streams[id]);
      w' := w;
    } else {
      NextAdvances(w, id);
      w' := CatchingUpSeesAll(Apply(w, Next(id)), id, n - 1);
      FirstNext(w, id, n, w');
    }
  }

  lemma FirstNext<T>(w: World<T>, id: nat, n: nat, w': World<T>)
    requires n > 0 && Enabled(w, Next(id)) && Run(Apply(w, Next(id)), Nexts(id, n - 1), w')
    ensures Run(w, Nexts(id, n), w')
  {
    assert Nexts<T>(id, n)[1..] == Nexts(id, n - 1);
  }
}
