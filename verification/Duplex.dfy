// The add-absorb duplex sponge of `duplex_sponge.py`: a mode, a position, a
// deferred permute, and the three axes its conventions differ on.
//
// Field elements are integers here and the absorb merge is any operation on
// them; the permutation is any map that keeps the width.
module Duplex {
  import opened Words

  type Elem = int

  datatype RateLanes = LEADING | TRAILING
  datatype SpillPermute = ALWAYS | SKIP_WHEN_REQUEST_EQUALS_RATE
  datatype SwitchPermute = BOTH_DIRECTIONS | ABSORB_TO_SQUEEZE_ONLY

  datatype Config = Config(
    width: nat, rate: nat, lanes: RateLanes, spill: SpillPermute, switchRule: SwitchPermute,
    perm: seq<Elem> -> seq<Elem>, add: (Elem, Elem) -> Elem)
  {
    ghost predicate Valid()
    {
      1 <= rate < width && forall s {:trigger perm(s)} :: |s| == width ==> |perm(s)| == width
    }

    // `_rate_base`: where lane 0 of the rate sits.
    function Base(): (b: nat)
      requires rate <= width
      ensures b + rate <= width
    {
      if lanes == LEADING then 0 else width - rate
    }
  }

  datatype Mode = ABSORBING | SQUEEZING

  datatype Sponge = Sponge(state: seq<Elem>, mode: Mode, pos: nat)

  ghost predicate Ready(c: Config, q: Sponge)
  {
    c.Valid() && |q.state| == c.width && q.pos <= c.rate
  }

  // `__init__`, its ValueErrors as `None`.
  function Init(c: Config): (q: Option<Sponge>)
    ensures q.Some? <==> 1 <= c.rate < c.width
  {
    if c.rate < 1 || c.rate >= c.width then None
    else Some(Sponge(seq(c.width, _ => 0), ABSORBING, 0))
  }

  // ------------------------------------------------------------------------
  // One element at a time

  // A position on the rate lanes.
  datatype Cursor = Cursor(state: seq<Elem>, pos: nat)

  ghost predicate On(c: Config, k: Cursor)
  {
    c.Valid() && |k.state| == c.width && k.pos <= c.rate
  }

  // The permute is deferred until a lane is asked for past the last one.
  ghost function Fresh(c: Config, k: Cursor): (r: Cursor)
    requires On(c, k)
    ensures On(c, r) && r.pos < c.rate
  {
    if k.pos == c.rate then Cursor(c.perm(k.state), 0) else k
  }

  ghost function AbsorbElem(c: Config, k: Cursor, x: Elem): (r: Cursor)
    requires On(c, k)
    ensures On(c, r)
  {
    var f := Fresh(c, k);
    var i := c.Base() + f.pos;
    Cursor(f.state[i := c.add(f.state[i], x)], f.pos + 1)
  }

  ghost function AbsorbEach(c: Config, k: Cursor, elems: seq<Elem>): (r: Cursor)
    requires On(c, k)
    ensures On(c, r)
  {
    if |elems| == 0 then k
    else AbsorbElem(c, AbsorbEach(c, k, elems[..|elems| - 1]), elems[|elems| - 1])
  }

  // The cursor after reading n lanes, permuting whenever they run out.
  ghost function SkipEach(c: Config, k: Cursor, n: nat): (r: Cursor)
    requires On(c, k)
    ensures On(c, r)
  {
    if n == 0 then k
    else
      var f := Fresh(c, SkipEach(c, k, n - 1));
      f.(pos := f.pos + 1)
  }

  // The lane read number i returns.
  ghost function ReadElem(c: Config, k: Cursor, i: nat): (x: Elem)
    requires On(c, k)
  {
    var f := Fresh(c, SkipEach(c, k, i));
    f.state[c.Base() + f.pos]
  }

  ghost function ReadEach(c: Config, k: Cursor, n: nat): (out: seq<Elem>)
    requires On(c, k)
    ensures |out| == n
  {
    if n == 0 then [] else ReadEach(c, k, n - 1) + [ReadElem(c, k, n - 1)]
  }

  lemma {:induction false} AbsorbEachConcat(c: Config, k: Cursor, x: seq<Elem>, y: seq<Elem>)
    requires On(c, k)
    ensures AbsorbEach(c, AbsorbEach(c, k, x), y) == AbsorbEach(c, k, x + y)
  {
    if |y| == 0 {
      assert x + y == x;
      AbsorbLast(c, AbsorbEach(c, k, x), y);
    } else {
      hide AbsorbElem, AbsorbEach, On;
      var n := |y| - 1;
      AbsorbEachConcat(c, k, x, y[..n]);
      assert (x + y)[..|x + y| - 1] == x + y[..n];
      AbsorbLast(c, k, x + y);
      AbsorbLast(c, AbsorbEach(c, k, x), y);
    }
  }

  lemma AbsorbLast(c: Config, k: Cursor, elems: seq<Elem>)
    requires On(c, k)
    ensures |elems| == 0 ==> AbsorbEach(c, k, elems) == k
    ensures |elems| > 0 ==>
      AbsorbEach(c, k, elems) == AbsorbElem(c, AbsorbEach(c, k, elems[..|elems| - 1]), elems[|elems| - 1])
  {
    hide AbsorbElem, On;
  }

  lemma {:induction false} SkipEachAdds(c: Config, k: Cursor, a: nat, b: nat)
    requires On(c, k)
    ensures SkipEach(c, SkipEach(c, k, a), b) == SkipEach(c, k, a + b)
  {
    if b > 0 {
      SkipEachAdds(c, k, a, b - 1);
    }
  }

  lemma {:induction false} ReadEachConcat(c: Config, k: Cursor, a: nat, b: nat)
    requires On(c, k)
    ensures ReadEach(c, k, a) + ReadEach(c, SkipEach(c, k, a), b) == ReadEach(c, k, a + b)
  {
    if b == 0 {
      assert ReadEach(c, k, a) + [] == ReadEach(c, k, a);
    } else {
      hide Fresh, SkipEach, ReadElem;
      ReadEachConcat(c, k, a, b - 1);
      ReadElemShift(c, k, a, b - 1);
      Regroup(ReadEach(c, k, a), ReadEach(c, SkipEach(c, k, a), b - 1), [ReadElem(c, k, a + (b - 1))]);
    }
  }

  lemma Regroup(a: seq<Elem>, b: seq<Elem>, d: seq<Elem>)
    ensures a + b + d == a + (b + d)
  {
  }

  lemma ReadElemShift(c: Config, k: Cursor, a: nat, i: nat)
    requires On(c, k)
    ensures ReadElem(c, SkipEach(c, k, a), i) == ReadElem(c, k, a + i)
  {
    hide Fresh, SkipEach;
    SkipEachAdds(c, k, a, i);
  }

  // A permute that is due anyway may be run early, when something follows.
  lemma {:induction false} AbsorbFresh(c: Config, k: Cursor, elems: seq<Elem>)
    requires On(c, k) && |elems| > 0
    ensures AbsorbEach(c, Fresh(c, k), elems) == AbsorbEach(c, k, elems)
  {
    if |elems| > 1 {
      AbsorbFresh(c, k, elems[..|elems| - 1]);
    }
  }

  lemma {:induction false} ReadFresh(c: Config, k: Cursor, n: nat)
    requires On(c, k)
    ensures n > 0 ==> SkipEach(c, Fresh(c, k), n) == SkipEach(c, k, n)
    ensures ReadEach(c, Fresh(c, k), n) == ReadEach(c, k, n)
  {
    if n > 0 {
      ReadFresh(c, k, n - 1);
    }
  }

  // ------------------------------------------------------------------------
  // A block at a time

  // `state.at[base + start : ...].add(elems)`
  function AddBlock(c: Config, s: seq<Elem>, start: nat, elems: seq<Elem>): (r: seq<Elem>)
    requires c.rate <= c.width == |s| && start + |elems| <= c.rate
    ensures |r| == |s|
  {
    var at := c.Base() + start;
    seq(|s|, i requires 0 <= i < |s| => if at <= i < at + |elems| then c.add(s[i], elems[i - at]) else s[i])
  }

  // Inside a block no permute is due: one addition is all of them.
  lemma {:induction false} AddBlockIsEach(c: Config, k: Cursor, elems: seq<Elem>)
    requires On(c, k) && k.pos + |elems| <= c.rate
    ensures AbsorbEach(c, k, elems) == Cursor(AddBlock(c, k.state, k.pos, elems), k.pos + |elems|)
  {
    if |elems| == 0 {
      assert AddBlock(c, k.state, k.pos, []) == k.state;
    } else {
      var n := |elems| - 1;
      AddBlockIsEach(c, k, elems[..n]);
    }
  }

  lemma {:induction false} ReadBlockIsEach(c: Config, k: Cursor, n: nat)
    requires On(c, k) && k.pos + n <= c.rate
    ensures SkipEach(c, k, n) == Cursor(k.state, k.pos + n)
    ensures ReadEach(c, k, n) == k.state[c.Base() + k.pos..c.Base() + k.pos + n]
  {
    if n > 0 {
      ReadBlockIsEach(c, k, n - 1);
      var at := c.Base() + k.pos;
      assert k.state[at..at + n] == k.state[at..at + (n - 1)] + [k.state[at + (n - 1)]];
    }
  }

  // A spilling absorb, one block of it.
  lemma AbsorbSpill(c: Config, k: Cursor, elems: seq<Elem>)
    requires On(c, k) && k.pos + |elems| > c.rate
    ensures var take := c.rate - k.pos;
            On(c, Cursor(c.perm(AddBlock(c, k.state, k.pos, elems[..take])), 0))
            && AbsorbEach(c, Cursor(c.perm(AddBlock(c, k.state, k.pos, elems[..take])), 0), elems[take..])
            == AbsorbEach(c, k, elems)
  {
    hide AddBlock, AbsorbEach;
    var take := c.rate - k.pos;
    AddBlockIsEach(c, k, elems[..take]);
    AbsorbEachConcat(c, k, elems[..take], elems[take..]);
    assert elems[..take] + elems[take..] == elems;
    AbsorbFresh(c, AbsorbEach(c, k, elems[..take]), elems[take..]);
  }

  // A spilling read, one block of it.
  lemma ReadSpill(c: Config, k: Cursor, n: nat)
    requires On(c, k) && k.pos + n > c.rate
    ensures var take, next := c.rate - k.pos, Cursor(c.perm(k.state), 0);
            && On(c, next)
            && SkipEach(c, next, n - take) == SkipEach(c, k, n)
            && k.state[c.Base() + k.pos..c.Base() + c.rate] + ReadEach(c, next, n - take) == ReadEach(c, k, n)
  {
    hide SkipEach, ReadEach;
    var take := c.rate - k.pos;
    ReadBlockIsEach(c, k, take);
    var spent := SkipEach(c, k, take);
    ReadFresh(c, spent, n - take);
    SkipEachAdds(c, k, take, n - take);
    ReadEachConcat(c, k, take, n - take);
  }

  // `_absorb_into_rate`
  method AbsorbIntoRate(c: Config, from: seq<Elem>, at: nat, data: seq<Elem>) returns (state: seq<Elem>, pos: nat)
    requires On(c, Cursor(from, at))
    ensures Cursor(state, pos) == AbsorbEach(c, Cursor(from, at), data)
  {
    hide AddBlock, AbsorbEach;
    state := from;
    var start: nat, elems := at, data;
    while start + |elems| > c.rate
      invariant On(c, Cursor(state, start))
      invariant AbsorbEach(c, Cursor(state, start), elems) == AbsorbEach(c, Cursor(from, at), data)
      decreases |elems|, start
    {
      AbsorbSpill(c, Cursor(state, start), elems);
      var take := c.rate - start;
      state := AddBlock(c, state, start, elems[..take]);
      state := c.perm(state);
      elems := elems[take..];
      start := 0;
    }
    AddBlockIsEach(c, Cursor(state, start), elems);
    state, pos := AddBlock(c, state, start, elems), start + |elems|;
  }

  // The one request the skipping convention answers differently: a whole
  // rate's worth, entered part way through the block.
  predicate Skipped(c: Config, pos: nat, n: nat)
  {
    c.spill == SKIP_WHEN_REQUEST_EQUALS_RATE && n == c.rate && 0 < pos < c.rate
  }

  // What a squeeze of `count` lanes from `first` returns.
  ghost function SqueezeLanes(c: Config, first: Cursor, count: nat): (r: (Cursor, seq<Elem>))
    requires On(c, first)
    ensures On(c, r.0) && |r.1| == count
  {
    var b := c.Base();
    if Skipped(c, first.pos, count)
    then (first, first.state[b + first.pos..b + c.rate] + first.state[b..b + first.pos])
    else (SkipEach(c, first, count), ReadEach(c, first, count))
  }

  // Part way through the loop: `n` lanes outstanding at `k`, `out` read.
  ghost predicate Outstanding(c: Config, first: Cursor, count: nat, k: Cursor, n: nat, out: seq<Elem>)
  {
    && On(c, first) && On(c, k) && k.pos < c.rate
    && (k.pos > 0 ==> k == first && n == count && out == [])
    && (Skipped(c, first.pos, count) ==>
          k == first || (k.pos == 0 && k.state == first.state && n == first.pos
                         && out == first.state[c.Base() + first.pos..c.Base() + c.rate]))
    && (!Skipped(c, first.pos, count) ==>
          SkipEach(c, k, n) == SkipEach(c, first, count) && out + ReadEach(c, k, n) == ReadEach(c, first, count))
  }

  lemma SqueezeSpill(c: Config, first: Cursor, count: nat, k: Cursor, n: nat, out: seq<Elem>)
    requires Outstanding(c, first, count, k, n, out) && k.pos + n > c.rate
    ensures var skip := c.spill == SKIP_WHEN_REQUEST_EQUALS_RATE && n == c.rate;
            Outstanding(c, first, count, Cursor(if skip then k.state else c.perm(k.state), 0), n - (c.rate - k.pos),
                        out + k.state[c.Base() + k.pos..c.Base() + c.rate])
  {
    hide SkipEach, ReadEach;
    ReadSpill(c, k, n);
    Regroup(out, k.state[c.Base() + k.pos..c.Base() + c.rate],
            ReadEach(c, Cursor(c.perm(k.state), 0), n - (c.rate - k.pos)));
  }

  lemma SqueezeRest(c: Config, first: Cursor, count: nat, k: Cursor, n: nat, out: seq<Elem>)
    requires Outstanding(c, first, count, k, n, out) && k.pos + n <= c.rate
    ensures SqueezeLanes(c, first, count)
         == (Cursor(k.state, k.pos + n), out + k.state[c.Base() + k.pos..c.Base() + k.pos + n])
  {
    hide SkipEach, ReadEach;
    ReadBlockIsEach(c, k, n);
  }

  // `_squeeze_from_rate`
  method SqueezeFromRate(c: Config, from: seq<Elem>, at: nat, count: nat)
    returns (state: seq<Elem>, pos: nat, out: seq<Elem>)
    requires On(c, Cursor(from, at)) && at < c.rate
    ensures (Cursor(state, pos), out) == SqueezeLanes(c, Cursor(from, at), count)
  {
    hide Outstanding, SqueezeLanes, SkipEach, ReadEach;
    var base := c.Base();
    var skipAtRate := c.spill == SKIP_WHEN_REQUEST_EQUALS_RATE;
    state, out := from, [];
    var start: nat, n: nat := at, count;
    SqueezeStarts(c, Cursor(from, at), count);
    while start + n > c.rate
      invariant On(c, Cursor(state, start)) && start < c.rate
      invariant Outstanding(c, Cursor(from, at), count, Cursor(state, start), n, out)
      decreases n
    {
      SqueezeSpill(c, Cursor(from, at), count, Cursor(state, start), n, out);
      out := out + state[base + start..base + c.rate];
      var take := c.rate - start;
      if !(skipAtRate && n == c.rate) {
        state := c.perm(state);
      }
      n := n - take;
      start := 0;
    }
    SqueezeRest(c, Cursor(from, at), count, Cursor(state, start), n, out);
    out := out + state[base + start..base + start + n];
    pos := start + n;
  }

  lemma SqueezeStarts(c: Config, first: Cursor, count: nat)
    requires On(c, first) && first.pos < c.rate
    ensures Outstanding(c, first, count, first, count, [])
  {
    assert [] + ReadEach(c, first, count) == ReadEach(c, first, count);
  }

  // ------------------------------------------------------------------------
  // `absorb` and `squeeze`

  // Where an absorb starts: turning round resets to the first rate lane, and
  // permutes first under one of the two switch rules.
  ghost function AbsorbEntry(c: Config, q: Sponge): (k: Cursor)
    requires Ready(c, q)
    ensures On(c, k)
  {
    if q.mode == ABSORBING then Cursor(q.state, q.pos)
    else Cursor(if c.switchRule == BOTH_DIRECTIONS then c.perm(q.state) else q.state, 0)
  }

  ghost function Absorbed(c: Config, q: Sponge, elems: seq<Elem>): (r: Sponge)
    requires Ready(c, q)
    ensures Ready(c, r)
  {
    if |elems| == 0 then q
    else var k := AbsorbEach(c, AbsorbEntry(c, q), elems); Sponge(k.state, ABSORBING, k.pos)
  }

  // Where a squeeze starts: absorbed lanes are always mixed before they are
  // read, and a drained block is permuted at once, whatever is asked for.
  ghost function SqueezeEntry(c: Config, q: Sponge): (k: Cursor)
    requires Ready(c, q)
    ensures On(c, k) && k.pos < c.rate
  {
    if q.mode == ABSORBING then Cursor(c.perm(q.state), 0) else Fresh(c, Cursor(q.state, q.pos))
  }

  ghost function Squeezed(c: Config, q: Sponge, n: nat): (r: (Sponge, seq<Elem>))
    requires Ready(c, q)
    ensures Ready(c, r.0) && r.0.mode == SQUEEZING && |r.1| == n
  {
    var t := SqueezeLanes(c, SqueezeEntry(c, q), n);
    (Sponge(t.0.state, SQUEEZING, t.0.pos), t.1)
  }

  method Absorb(c: Config, q: Sponge, elems: seq<Elem>) returns (r: Sponge)
    requires Ready(c, q)
    ensures r == Absorbed(c, q, elems)
  {
    if |elems| == 0 {
      return q;
    }
    var state, pos := q.state, q.pos;
    if q.mode == SQUEEZING {
      if c.switchRule == BOTH_DIRECTIONS {
        state := c.perm(state);
      }
      pos := 0;
    }
    state, pos := AbsorbIntoRate(c, state, pos, elems);
    r := Sponge(state, ABSORBING, pos);
  }

  // `squeeze`; `None` is the ValueError of a negative count.
  method Squeeze(c: Config, q: Sponge, n: int) returns (r: Option<(Sponge, seq<Elem>)>)
    requires Ready(c, q)
    ensures r == if n < 0 then None else Some(Squeezed(c, q, n))
  {
    if n < 0 {
      return None;
    }
    var state, pos := q.state, q.pos;
    if q.mode == ABSORBING {
      state := c.perm(state);
      pos := 0;
    } else if pos == c.rate {
      state := c.perm(state);
      pos := 0;
    }
    var out: seq<Elem>;
    state, pos, out := SqueezeFromRate(c, state, pos, n);
    r := Some((Sponge(state, SQUEEZING, pos), out));
  }

  // ------------------------------------------------------------------------
  // What a request does, state by state

  // `base`, read off the axis alone.
  predicate RateFrom(c: Config, b: nat)
  {
    c.rate <= c.width && b == match c.lanes { case LEADING => 0 case TRAILING => c.width - c.rate }
  }

  // The state with x added to the rate lanes from `at` on, lane by lane.
  predicate Merged(c: Config, b: nat, before: seq<Elem>, at: nat, x: seq<Elem>, after: seq<Elem>)
  {
    && |before| == |after| == c.width
    && forall i :: 0 <= i < c.width ==>
         after[i] == if b + at <= i < b + at + |x| then c.add(before[i], x[i - (b + at)]) else before[i]
  }

  // A squeeze turning round permutes before a lane is read; one that finds its
  // block drained permutes too. Whatever is asked for.
  lemma SqueezeTurns(c: Config, q: Sponge, n: nat)
    requires Ready(c, q) && (q.mode == ABSORBING || q.pos == c.rate)
    ensures Squeezed(c, q, n) == Squeezed(c, Sponge(c.perm(q.state), SQUEEZING, 0), n)
  {
    hide SkipEach, ReadEach;
  }

  // Inside a block a squeeze reads the next lanes; past one it permutes and
  // goes on.
  lemma SqueezeReads(c: Config, q: Sponge, b: nat, n: nat)
    requires Ready(c, q) && q.mode == SQUEEZING && q.pos < c.rate && RateFrom(c, b)
    ensures q.pos + n <= c.rate ==>
              Squeezed(c, q, n) == (q.(pos := q.pos + n), q.state[b + q.pos..b + q.pos + n])
    ensures q.pos + n > c.rate && c.spill == ALWAYS ==>
              var rest := Squeezed(c, Sponge(c.perm(q.state), SQUEEZING, 0), n - (c.rate - q.pos));
              Squeezed(c, q, n) == (rest.0, q.state[b + q.pos..b + c.rate] + rest.1)
  {
    hide SkipEach, ReadEach;
    if q.pos + n <= c.rate {
      ReadBlockIsEach(c, Cursor(q.state, q.pos), n);
    } else {
      ReadSpill(c, Cursor(q.state, q.pos), n);
    }
  }

  // An absorb turning round starts at the first rate lane, and permutes under
  // one switch rule only; one that finds its block full permutes under both.
  lemma AbsorbTurns(c: Config, q: Sponge, x: seq<Elem>)
    requires Ready(c, q) && |x| > 0
    ensures q.mode == SQUEEZING && c.switchRule == BOTH_DIRECTIONS ==>
              Absorbed(c, q, x) == Absorbed(c, Sponge(c.perm(q.state), ABSORBING, 0), x)
    ensures q.mode == SQUEEZING && c.switchRule == ABSORB_TO_SQUEEZE_ONLY ==>
              Absorbed(c, q, x) == Absorbed(c, Sponge(q.state, ABSORBING, 0), x)
    ensures q.mode == ABSORBING && q.pos == c.rate ==>
              Absorbed(c, q, x) == Absorbed(c, Sponge(c.perm(q.state), ABSORBING, 0), x)
  {
    hide AbsorbEach;
    if q.mode == ABSORBING {
      AbsorbFresh(c, Cursor(q.state, q.pos), x);
    }
  }

  // Inside a block an absorb adds to the next lanes and defers the permute;
  // past one it permutes and goes on.
  lemma AbsorbMerges(c: Config, q: Sponge, b: nat, x: seq<Elem>)
    requires Ready(c, q) && q.mode == ABSORBING && RateFrom(c, b)
    ensures q.pos + |x| <= c.rate ==>
              var r := Absorbed(c, q, x);
              Merged(c, b, q.state, q.pos, x, r.state) && r.mode == ABSORBING && r.pos == q.pos + |x|
    ensures q.pos + |x| > c.rate ==>
              var take := c.rate - q.pos;
              var filled := Absorbed(c, q, x[..take]);
              && Merged(c, b, q.state, q.pos, x[..take], filled.state)
              && Absorbed(c, q, x) == Absorbed(c, Sponge(c.perm(filled.state), ABSORBING, 0), x[take..])
  {
    hide AbsorbEach;
    var k := Cursor(q.state, q.pos);
    if q.pos + |x| <= c.rate {
      AddBlockIsEach(c, k, x);
    } else {
      var front := x[..c.rate - q.pos];
      AddBlockIsEach(c, k, front);
      AbsorbLast(c, k, front);
      assert Absorbed(c, q, front).state == AddBlock(c, q.state, q.pos, front);
      AbsorbSpill(c, k, x);
    }
  }

  // From zero, a block absorbed and then read: the permutation of the zero
  // state with the block added.
  lemma FirstExchange(c: Config, b: nat, x: seq<Elem>, n: nat, mixed: seq<Elem>)
    requires c.Valid() && 1 <= |x| <= c.rate && n <= c.rate && RateFrom(c, b)
    requires |mixed| == c.width
    requires forall i :: 0 <= i < c.width ==> mixed[i] == if b <= i < b + |x| then c.add(0, x[i - b]) else 0
    ensures Init(c).Some?
    ensures Squeezed(c, Absorbed(c, Init(c).value, x), n)
         == (Sponge(c.perm(mixed), SQUEEZING, n), c.perm(mixed)[b..b + n])
  {
    hide Absorbed, Squeezed;
    var q := Init(c).value;
    AbsorbMerges(c, q, b, x);
    var r := Absorbed(c, q, x);
    assert r.state == mixed;
    SqueezeTurns(c, r, n);
    SqueezeReads(c, Sponge(c.perm(mixed), SQUEEZING, 0), b, n);
  }

  // ------------------------------------------------------------------------
  // Split laws, from every state

  // Two absorbs are one, under every convention.
  lemma AbsorbSplits(c: Config, q: Sponge, x: seq<Elem>, y: seq<Elem>)
    requires Ready(c, q)
    ensures Absorbed(c, Absorbed(c, q, x), y) == Absorbed(c, q, x + y)
  {
    hide AbsorbEach;
    if |x| == 0 {
      assert x + y == y;
    } else if |y| == 0 {
      assert x + y == x;
    } else {
      AbsorbEachConcat(c, AbsorbEntry(c, q), x, y);
    }
  }

  // Two squeezes are one, as long as the convention always permutes and the
  // second asks for something.
  lemma SqueezeSplits(c: Config, q: Sponge, a: nat, b: nat)
    requires Ready(c, q) && c.spill == ALWAYS && b >= 1
    ensures var first := Squeezed(c, q, a);
            var second := Squeezed(c, first.0, b);
            Squeezed(c, q, a + b) == (second.0, first.1 + second.1)
  {
    hide SkipEach, ReadEach, Fresh;
    var k := SqueezeEntry(c, q);
    var mid := SkipEach(c, k, a);
    ReadFresh(c, mid, b);
    SkipEachAdds(c, k, a, b);
    ReadEachConcat(c, k, a, b);
  }

  // An empty squeeze is invisible exactly when it finds the sponge squeezing
  // with a lane left to read; otherwise it spends the deferred permute.
  lemma EmptySqueeze(c: Config, q: Sponge)
    requires Ready(c, q)
    ensures Squeezed(c, q, 0).0 == q <==> q.mode == SQUEEZING && q.pos < c.rate
  {
  }

  // The skipping convention differs from the other on one request only, and
  // there it returns the block's lanes rotated, off a state it does not permute.
  lemma SkipDiffers(c: Config, q: Sponge, n: nat)
    requires Ready(c, q) && c.spill == SKIP_WHEN_REQUEST_EQUALS_RATE
    ensures var b := c.Base();
            var always := c.(spill := ALWAYS);
            if q.mode == SQUEEZING && 0 < q.pos < c.rate && n == c.rate then
              && Squeezed(c, q, n) == (q, q.state[b + q.pos..b + c.rate] + q.state[b..b + q.pos])
              && Squeezed(always, q, n).0 == Sponge(c.perm(q.state), SQUEEZING, q.pos)
              && Squeezed(always, q, n).1 == q.state[b + q.pos..b + c.rate] + c.perm(q.state)[b..b + q.pos]
            else
              Squeezed(c, q, n) == Squeezed(always, q, n)
  {
    hide SkipEach, ReadEach;
    var always := c.(spill := ALWAYS);
    assert always.Valid();
    var k := SqueezeEntry(c, q);
    assert SqueezeEntry(always, q) == k;
    SameReads(c, always, k, n);
    if Skipped(c, k.pos, n) {
      ReadSpill(always, k, n);
      ReadBlockIsEach(always, Cursor(c.perm(k.state), 0), k.pos);
    }
  }

  lemma {:induction false} SameReads(c: Config, d: Config, k: Cursor, n: nat)
    requires On(c, k) && On(d, k) && d == c.(spill := d.spill)
    ensures SkipEach(c, k, n) == SkipEach(d, k, n) && ReadEach(c, k, n) == ReadEach(d, k, n)
  {
    if n > 0 {
      hide Fresh;
      SameReads(c, d, k, n - 1);
      SameFresh(c, d, SkipEach(c, k, n - 1));
    }
  }

  lemma SameFresh(c: Config, d: Config, k: Cursor)
    requires On(c, k) && On(d, k) && d == c.(spill := d.spill)
    ensures Fresh(c, k) == Fresh(d, k)
  {
  }

  // ------------------------------------------------------------------------
  // Which end the rate sits at

  // A trailing-rate state with its two halves exchanged.
  function Rotated(c: Config, s: seq<Elem>): (r: seq<Elem>)
    requires c.rate <= c.width == |s|
    ensures |r| == |s|
  {
    s[c.width - c.rate..] + s[..c.width - c.rate]
  }

  function Unrotated(c: Config, s: seq<Elem>): (r: seq<Elem>)
    requires c.rate <= c.width == |s|
    ensures |r| == |s|
  {
    s[c.rate..] + s[..c.rate]
  }

  // `d` is `c` with the rate in front, over the permutation conjugated by that
  // exchange.
  ghost predicate Conjugate(c: Config, d: Config)
    requires c.Valid() && d.Valid()
  {
    && c.lanes == TRAILING && d.lanes == LEADING
    && d.width == c.width && d.rate == c.rate && d.spill == c.spill && d.switchRule == c.switchRule && d.add == c.add
    && forall s {:trigger CommutesAt(c, d, s)} :: |s| == c.width ==> CommutesAt(c, d, s)
  }

  ghost predicate CommutesAt(c: Config, d: Config, s: seq<Elem>)
    requires c.Valid() && |s| == c.width
  {
    d.perm(Rotated(c, s)) == Rotated(c, c.perm(s))
  }

  function Front(c: Config): (d: Config)
    requires c.rate <= c.width
  {
    c.(lanes := LEADING,
       perm := s => if |s| == c.width && |c.perm(Unrotated(c, s))| == c.width
                    then Rotated(c, c.perm(Unrotated(c, s))) else s)
  }

  // Every trailing sponge has such a partner.
  lemma FrontIsConjugate(c: Config)
    requires c.Valid() && c.lanes == TRAILING
    ensures Front(c).Valid() && Conjugate(c, Front(c))
  {
    var d := Front(c);
    forall s | |s| == c.width
      ensures |d.perm(s)| == c.width
    {
      assert |c.perm(Unrotated(c, s))| == c.width;
    }
    assert d.Valid();
    forall s | |s| == c.width
      ensures CommutesAt(c, d, s)
    {
      assert Unrotated(c, Rotated(c, s)) == s;
      assert |c.perm(s)| == c.width;
    }
  }

  ghost predicate Mirrors(c: Config, k: Cursor, l: Cursor)
    requires On(c, k)
  {
    l == Cursor(Rotated(c, k.state), k.pos)
  }

  lemma MirrorFresh(c: Config, d: Config, k: Cursor, l: Cursor)
    requires On(c, k) && On(d, l) && Conjugate(c, d) && Mirrors(c, k, l)
    ensures Mirrors(c, Fresh(c, k), Fresh(d, l))
  {
    assert CommutesAt(c, d, k.state);
  }

  lemma {:induction false} MirrorAbsorb(c: Config, d: Config, k: Cursor, l: Cursor, elems: seq<Elem>)
    requires On(c, k) && On(d, l) && Conjugate(c, d) && Mirrors(c, k, l)
    ensures Mirrors(c, AbsorbEach(c, k, elems), AbsorbEach(d, l, elems))
  {
    if |elems| > 0 {
      var n := |elems| - 1;
      MirrorAbsorb(c, d, k, l, elems[..n]);
      MirrorAbsorbElem(c, d, AbsorbEach(c, k, elems[..n]), AbsorbEach(d, l, elems[..n]), elems[n]);
    }
  }

  lemma MirrorAbsorbElem(c: Config, d: Config, k: Cursor, l: Cursor, x: Elem)
    requires On(c, k) && On(d, l) && Conjugate(c, d) && Mirrors(c, k, l)
    ensures Mirrors(c, AbsorbElem(c, k, x), AbsorbElem(d, l, x))
  {
    hide Fresh;
    MirrorFresh(c, d, k, l);
    var f := Fresh(c, k);
    var i := c.width - c.rate + f.pos;
    assert Rotated(c, f.state[i := c.add(f.state[i], x)]) == Rotated(c, f.state)[f.pos := c.add(f.state[i], x)];
  }

  lemma {:induction false} MirrorReads(c: Config, d: Config, k: Cursor, l: Cursor, n: nat)
    requires On(c, k) && On(d, l) && Conjugate(c, d) && Mirrors(c, k, l)
    ensures Mirrors(c, SkipEach(c, k, n), SkipEach(d, l, n))
    ensures ReadEach(c, k, n) == ReadEach(d, l, n)
  {
    if n > 0 {
      hide Fresh, Conjugate, Rotated;
      MirrorReads(c, d, k, l, n - 1);
      MirrorFresh(c, d, SkipEach(c, k, n - 1), SkipEach(d, l, n - 1));
      MirrorLane(c, d, Fresh(c, SkipEach(c, k, n - 1)), Fresh(d, SkipEach(d, l, n - 1)));
    }
  }

  lemma MirrorLane(c: Config, d: Config, k: Cursor, l: Cursor)
    requires On(c, k) && On(d, l) && Conjugate(c, d) && Mirrors(c, k, l) && k.pos < c.rate
    ensures k.state[c.Base() + k.pos] == l.state[d.Base() + l.pos]
    ensures Mirrors(c, k.(pos := k.pos + 1), l.(pos := l.pos + 1))
  {
  }

  lemma MirrorLanes(c: Config, d: Config, k: Cursor, l: Cursor, n: nat)
    requires On(c, k) && On(d, l) && Conjugate(c, d) && Mirrors(c, k, l)
    ensures Mirrors(c, SqueezeLanes(c, k, n).0, SqueezeLanes(d, l, n).0)
    ensures SqueezeLanes(c, k, n).1 == SqueezeLanes(d, l, n).1
  {
    hide SkipEach, ReadEach;
    MirrorReads(c, d, k, l, n);
    var b := c.width - c.rate;
    assert l.state[l.pos..c.rate] == k.state[b + k.pos..b + c.rate];
    assert l.state[..l.pos] == k.state[b..b + k.pos];
  }

  ghost predicate Partners(c: Config, q: Sponge, r: Sponge)
    requires Ready(c, q)
  {
    r == Sponge(Rotated(c, q.state), q.mode, q.pos)
  }

  datatype Request = AbsorbRequest(elems: seq<Elem>) | SqueezeRequest(n: nat)

  // An interleaved run, with the outputs it returned.
  ghost function Run(c: Config, q: Sponge, requests: seq<Request>): (r: (Sponge, seq<seq<Elem>>))
    requires Ready(c, q)
    ensures Ready(c, r.0)
  {
    if |requests| == 0 then (q, [])
    else
      var before := Run(c, q, requests[..|requests| - 1]);
      match requests[|requests| - 1]
      case AbsorbRequest(elems) => (Absorbed(c, before.0, elems), before.1)
      case SqueezeRequest(n) => var t := Squeezed(c, before.0, n); (t.0, before.1 + [t.1])
  }

  function Squeezes(requests: seq<Request>): (n: nat)
  {
    if |requests| == 0 then 0
    else Squeezes(requests[1..]) + (if requests[0].SqueezeRequest? then 1 else 0)
  }

  lemma {:induction false} SqueezesSnoc(requests: seq<Request>, last: Request)
    ensures Squeezes(requests + [last]) == Squeezes(requests) + (if last.SqueezeRequest? then 1 else 0)
  {
    if |requests| == 0 {
      assert (requests + [last])[1..] == [];
    } else {
      SqueezesSnoc(requests[1..], last);
      assert (requests + [last])[1..] == requests[1..] + [last];
    }
  }

  // A run's outputs are its squeezes' answers, in order, each from the state
  // the requests before it leave.
  lemma {:induction false} RunAnswers(c: Config, q: Sponge, requests: seq<Request>, k: nat)
    requires Ready(c, q) && k < |requests|
    ensures |Run(c, q, requests).1| == Squeezes(requests)
    ensures requests[k].SqueezeRequest? ==>
              var j := Squeezes(requests[..k]);
              && j < |Run(c, q, requests).1|
              && Run(c, q, requests).1[j] == Squeezed(c, Run(c, q, requests[..k]).0, requests[k].n).1
    ensures requests[k].AbsorbRequest? ==>
              Run(c, q, requests[..k + 1]).0 == Absorbed(c, Run(c, q, requests[..k]).0, requests[k].elems)
  {
    hide Absorbed, Squeezed, Ready;
    var n := |requests| - 1;
    assert requests == requests[..n] + [requests[n]];
    SqueezesSnoc(requests[..n], requests[n]);
    assert requests[..k + 1][..k] == requests[..k];
    if n == 0 {
      assert requests[..n] == [];
    } else if k < n {
      RunAnswers(c, q, requests[..n], k);
      assert requests[..n][..k] == requests[..k];
    } else {
      RunAnswers(c, q, requests[..n], n - 1);
    }
  }

  lemma MirrorAbsorbed(c: Config, d: Config, q: Sponge, r: Sponge, elems: seq<Elem>)
    requires Ready(c, q) && Ready(d, r) && Conjugate(c, d) && Partners(c, q, r)
    ensures Partners(c, Absorbed(c, q, elems), Absorbed(d, r, elems))
  {
    hide AbsorbEach;
    assert CommutesAt(c, d, q.state);
    MirrorAbsorb(c, d, AbsorbEntry(c, q), AbsorbEntry(d, r), elems);
  }

  lemma MirrorSqueezed(c: Config, d: Config, q: Sponge, r: Sponge, n: nat)
    requires Ready(c, q) && Ready(d, r) && Conjugate(c, d) && Partners(c, q, r)
    ensures Partners(c, Squeezed(c, q, n).0, Squeezed(d, r, n).0)
    ensures Squeezed(c, q, n).1 == Squeezed(d, r, n).1
  {
    hide SqueezeLanes, Rotated;
    assert CommutesAt(c, d, q.state);
    if q.mode == SQUEEZING {
      MirrorFresh(c, d, Cursor(q.state, q.pos), Cursor(r.state, r.pos));
    }
    MirrorLanes(c, d, SqueezeEntry(c, q), SqueezeEntry(d, r), n);
  }

  // The bisimulation, over every interleaved run.
  lemma {:induction false} RunsMirror(c: Config, d: Config, q: Sponge, r: Sponge, requests: seq<Request>)
    requires Ready(c, q) && Ready(d, r) && Conjugate(c, d) && Partners(c, q, r)
    ensures Partners(c, Run(c, q, requests).0, Run(d, r, requests).0)
    ensures Run(c, q, requests).1 == Run(d, r, requests).1
  {
    hide Absorbed, Squeezed, Partners, Conjugate;
    if |requests| > 0 {
      var n := |requests| - 1;
      RunsMirror(c, d, q, r, requests[..n]);
      var qn, rn := Run(c, q, requests[..n]).0, Run(d, r, requests[..n]).0;
      match requests[n]
      case AbsorbRequest(elems) => MirrorAbsorbed(c, d, qn, rn, elems);
      case SqueezeRequest(m) => MirrorSqueezed(c, d, qn, rn, m);
    }
  }

  // So a trailing-rate sponge answers every run as its leading-rate partner.
  lemma TrailingIsLeading(c: Config, requests: seq<Request>)
    requires c.Valid() && c.lanes == TRAILING
    ensures Front(c).Valid()
    ensures Run(c, Init(c).value, requests).1 == Run(Front(c), Init(Front(c)).value, requests).1
  {
    FrontIsConjugate(c);
    assert Rotated(c, Init(c).value.state) == Init(Front(c)).value.state;
    RunsMirror(c, Front(c), Init(c).value, Init(Front(c)).value, requests);
  }
}
