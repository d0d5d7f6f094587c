/** A hand-written two-iterator chain adapter: yields every item of `a`, then
    every item of `b`. The inner iterators are slice iterators, each a finite
    sequence with a cursor. */
module Chain {
  import opened Wrappers

  /** The iterator over a finite sequence: `next` yields the item under the
      cursor and advances it, and keeps yielding `None` once exhausted. */
  class SeqIter<T> {
    const items: seq<T>
    var pos: nat
    /** How many times `Next` has been called: makes a poll observable even
        when it changes nothing else. */
    ghost var polls: nat

    ghost predicate Valid()
      reads this
    {
      pos <= |items|
    }

    /** The items not yet yielded. */
    ghost function Rest(): seq<T>
      reads this
      requires Valid()
    {
      items[pos..]
    }

    /** What the next call of `Next` yields. */
    ghost function Peek(): Option<T>
      reads this
      requires Valid()
    {
      if pos < |items| then Some(items[pos]) else None
    }

    constructor (items: seq<T>)
      ensures Valid()
      ensures this.items == items && pos == 0 && polls == 0
    {
      this.items := items;
      pos := 0;
      polls := 0;
    }

    method Next() returns (r: Option<T>)
      requires Valid()
      modifies this
      ensures Valid()
      ensures r == old(Peek())
      ensures polls == old(polls) + 1
      ensures r.None? <==> old(Rest()) == []
      ensures r.None? ==> Rest() == []
      ensures r.Some? ==> old(Rest()) == [r.value] + Rest()
    {
      polls := polls + 1;
      if pos < |items| {
        r := Some(items[pos]);
        pos := pos + 1;
      } else {
        r := None;
      }
    }
  }

  datatype ChainState = Front | Back

  class NaiveChain<T> {
    const a: SeqIter<T>
    const b: SeqIter<T>
    var state: ChainState

    /** The adapter owns two distinct iterators; once in `Back`, `a` is
        exhausted. */
    ghost predicate Valid()
      reads this, a, b
    {
      a != b && a.Valid() && b.Valid() &&
      (state == Back ==> a.Rest() == [])
    }

    /** The items the chain has still to yield, in order. */
    ghost function Remaining(): seq<T>
      reads this, a, b
      requires Valid()
    {
      match state
      case Front => a.Rest() + b.Rest()
      case Back => b.Rest()
    }

    /** `NaiveChain::new`: starts in `Front` and polls neither iterator. */
    constructor (a: SeqIter<T>, b: SeqIter<T>)
      requires a != b && a.Valid() && b.Valid()
      ensures Valid()
      ensures this.a == a && this.b == b && state == Front
      ensures Remaining() == a.Rest() + b.Rest()
    {
      this.a := a;
      this.b := b;
      state := Front;
    }

    method Next() returns (r: Option<T>)
      requires Valid()
      modifies this, a, b
      ensures Valid()
      // while `a` yields, its item is returned and `b` is not touched
      ensures old(state) == Front && old(a.Peek()).Some? ==>
        r == old(a.Peek()) && state == Front &&
        a.polls == old(a.polls) + 1 && unchanged(b)
      // the first `None` from `a` switches to `Back` and polls `b` at once
      ensures old(state) == Front && old(a.Peek()) == None ==>
        state == Back && r == old(b.Peek()) &&
        a.polls == old(a.polls) + 1 && b.polls == old(b.polls) + 1
      // in `Back` the state stays, `a` is never polled again, `b` answers
      ensures old(state) == Back ==>
        state == Back && unchanged(a) && r == old(b.Peek()) &&
        b.polls == old(b.polls) + 1
      // abstractly: the head of what remains is returned and removed
      ensures r.None? <==> old(Remaining()) == []
      ensures r.None? ==> Remaining() == []
      ensures r.Some? ==> old(Remaining()) == [r.value] + Remaining()
    {
      match state
      case Front =>
        r := a.Next();
        if r.None? {
          state := Back;
          r := b.Next();
        }
      case Back =>
        r := b.Next();
    }
  }

  /** Drains `NaiveChain::new(xs.iter(), ys.iter())` to its first `None`,
      collecting what it yields: exactly the items of `Iterator::chain`. */
  method Drain<T>(xs: seq<T>, ys: seq<T>) returns (out: seq<T>)
    ensures out == xs + ys
  {
    var a := new SeqIter(xs);
    var b := new SeqIter(ys);
    var chain := new NaiveChain(a, b);
    out := [];
    while true
      invariant chain.Valid()
      invariant out + chain.Remaining() == xs + ys
      decreases |chain.Remaining()|
    {
      var r := chain.Next();
      if r.None? {
        break;
      }
      Collected(out, r.value, chain.Remaining(), xs + ys);
      out := out + [r.value];
    }
  }

  /** One step of draining: moving the yielded item from the remaining items
      to the collected ones keeps their concatenation. The loop calls it so
      that this re-association of sequences is not left to the solver's
      search, which is costly on some random seeds. */
  lemma Collected<T>(out: seq<T>, x: T, rest: seq<T>, all: seq<T>)
    requires out + ([x] + rest) == all
    ensures (out + [x]) + rest == all
  {
  }
}
