/**
 Linear feedback shift registers in general: a register whose turn is additive
 and injective, fed one bit at a time, tells apart any two bit windows that are
 no longer than the register is wide.
 */
module ShiftRegister {

  /**
   `mix` is addition (exclusive or), `turn` one step, `push` makes room for a new
   low bit, `low` reads that bit, and `fits(w, n)` says that w needs at most n bits.
   */
  datatype Register<!S> = Register(
    width: nat, zero: S, one: S,
    mix: (S, S) -> S, turn: S -> S, push: S -> S, low: S -> bool, fits: (S, nat) -> bool)

  function One<S>(r: Register<S>, bit: bool): S {
    if bit then r.one else r.zero
  }

  /** `n` turns of the register. */
  function Turns<S>(r: Register<S>, c: S, n: nat): S
    decreases 2 * n
  {
    if n == 0 then c else Turns(r, r.turn(c), n - 1)
  }

  /** Mix in one bit and turn, for every bit of the message. */
  function Feed<S>(r: Register<S>, c: S, bits: seq<bool>): S
    decreases bits
  {
    if bits == [] then c else Feed(r, r.turn(r.mix(c, One(r, bits[0]))), bits[1..])
  }

  /** The bits packed into one word, the first bit lowest. */
  function Word<S>(r: Register<S>, bits: seq<bool>): S {
    if bits == [] then r.zero else r.mix(One(r, bits[0]), r.push(Word(r, bits[1..])))
  }

  ghost predicate Associative<S(!new)>(r: Register<S>) {
    forall x, y, z :: r.mix(x, r.mix(y, z)) == r.mix(r.mix(x, y), z)
  }

  ghost predicate CancelsRight<S(!new)>(r: Register<S>) {
    forall x, y, z :: r.mix(x, z) == r.mix(y, z) ==> x == y
  }

  ghost predicate CancelsLeft<S(!new)>(r: Register<S>) {
    forall x, y, z :: r.mix(z, x) == r.mix(z, y) ==> x == y
  }

  ghost predicate HasZero<S(!new)>(r: Register<S>) {
    forall x :: r.mix(x, r.zero) == x
  }

  ghost predicate TurnInjective<S(!new)>(r: Register<S>) {
    forall x, y :: r.turn(x) == r.turn(y) ==> x == y
  }

  ghost predicate TurnAdditive<S(!new)>(r: Register<S>) {
    forall x, y :: r.turn(r.mix(x, y)) == r.mix(r.turn(x), r.turn(y))
  }

  ghost predicate LowBitReadable<S(!new)>(r: Register<S>) {
    forall b, x :: r.low(r.mix(One(r, b), r.push(x))) == b
  }

  ghost predicate PushGrows<S(!new)>(r: Register<S>) {
    && r.fits(r.zero, 0)
    && forall b, x, n: nat :: r.fits(x, n) ==> r.fits(r.mix(One(r, b), r.push(x)), n + 1)
  }

  ghost predicate TurnUndoesPush<S(!new)>(r: Register<S>) {
    forall x, n: nat :: r.fits(x, n) && n < r.width ==> r.turn(r.push(x)) == x
  }

  /** The laws of a linear register that is `width` bits wide. */
  ghost predicate Lawful<S(!new)>(r: Register<S>) {
    && Associative(r) && CancelsRight(r) && CancelsLeft(r) && HasZero(r) && TurnInjective(r) && TurnAdditive(r)
    && LowBitReadable(r) && PushGrows(r) && TurnUndoesPush(r)
  }

  lemma {:induction false} WordFits<S(!new)>(r: Register<S>, bits: seq<bool>)
    requires Lawful(r)
    ensures r.fits(Word(r, bits), |bits|)
  {
    if bits != [] {
      WordFits(r, bits[1..]);
    }
  }

  lemma {:induction false} FeedConcat<S>(r: Register<S>, c: S, x: seq<bool>, y: seq<bool>)
    ensures Feed(r, c, x + y) == Feed(r, Feed(r, c, x), y)
    decreases x
  {
    if x == [] {
      assert x + y == y;
    } else {
      assert (x + y)[1..] == x[1..] + y;
      FeedConcat(r, r.turn(r.mix(c, One(r, x[0]))), x[1..], y);
    }
  }

  lemma {:induction false} FeedInjective<S(!new)>(r: Register<S>, c: S, d: S, bits: seq<bool>)
    requires Lawful(r)
    requires Feed(r, c, bits) == Feed(r, d, bits)
    ensures c == d
    decreases bits
  {
    if bits != [] {
      var b := One(r, bits[0]);
      FeedInjective(r, r.turn(r.mix(c, b)), r.turn(r.mix(d, b)), bits[1..]);
    }
  }

  lemma {:induction false} TurnsInjective<S(!new)>(r: Register<S>, x: S, y: S, n: nat)
    requires Lawful(r)
    requires Turns(r, x, n) == Turns(r, y, n)
    ensures x == y
    decreases n
  {
    if n != 0 {
      TurnsInjective(r, r.turn(x), r.turn(y), n - 1);
    }
  }

  /** Feeding a window bit by bit is mixing it in as one word and then turning. */
  lemma {:induction false} FeedIsWord<S(!new)>(r: Register<S>, c: S, bits: seq<bool>)
    requires Lawful(r)
    requires |bits| <= r.width
    ensures Feed(r, c, bits) == Turns(r, r.mix(c, Word(r, bits)), |bits|)
    decreases bits
  {
    if bits != [] {
      var b, w := One(r, bits[0]), Word(r, bits[1..]);
      WordFits(r, bits[1..]);
      calc {
        Turns(r, r.mix(c, r.mix(b, r.push(w))), |bits|);
        Turns(r, r.turn(r.mix(r.mix(c, b), r.push(w))), |bits| - 1);
        Turns(r, r.mix(r.turn(r.mix(c, b)), w), |bits| - 1);
        { FeedIsWord(r, r.turn(r.mix(c, b)), bits[1..]); }
        Feed(r, r.turn(r.mix(c, b)), bits[1..]);
      }
    }
  }

  lemma {:induction false} WordInjective<S(!new)>(r: Register<S>, x: seq<bool>, y: seq<bool>)
    requires Lawful(r)
    requires |x| == |y| <= r.width
    requires Word(r, x) == Word(r, y)
    ensures x == y
  {
    if x != [] {
      var v, w := Word(r, x[1..]), Word(r, y[1..]);
      assert r.low(Word(r, x)) == x[0] && r.low(Word(r, y)) == y[0];
      assert r.push(v) == r.push(w);
      WordFits(r, x[1..]);
      WordFits(r, y[1..]);
      WordInjective(r, x[1..], y[1..]);
      assert x == [x[0]] + x[1..] && y == [y[0]] + y[1..];
    }
  }

  /** Two windows no longer than the register, fed from the same state, never collide. */
  lemma WindowInjective<S(!new)>(r: Register<S>, c: S, u: seq<bool>, v: seq<bool>)
    requires Lawful(r)
    requires |u| == |v| <= r.width
    requires Feed(r, c, u) == Feed(r, c, v)
    ensures u == v
  {
    FeedIsWord(r, c, u);
    FeedIsWord(r, c, v);
    TurnsInjective(r, r.mix(c, Word(r, u)), r.mix(c, Word(r, v)), |u|);
    WordInjective(r, u, v);
  }

  lemma SurroundedWindowInjective<S(!new)>(
    r: Register<S>, c: S, before: seq<bool>, u: seq<bool>, v: seq<bool>, after: seq<bool>)
    requires Lawful(r)
    requires |u| == |v| <= r.width
    requires Feed(r, c, before + (u + after)) == Feed(r, c, before + (v + after))
    ensures u == v
  {
    var d := Feed(r, c, before);
    FeedConcat(r, c, before, u + after);
    FeedConcat(r, c, before, v + after);
    FeedConcat(r, d, u, after);
    FeedConcat(r, d, v, after);
    FeedInjective(r, Feed(r, d, u), Feed(r, d, v), after);
    WindowInjective(r, d, u, v);
  }

  /** Two messages that agree outside one window of `width` bits leave different registers behind. */
  lemma WindowDetected<S(!new)>(r: Register<S>, c: S, s: seq<bool>, t: seq<bool>, k: nat)
    requires Lawful(r)
    requires |s| == |t|
    requires forall i :: 0 <= i < |s| && !(k <= i < k + r.width) ==> s[i] == t[i]
    requires Feed(r, c, s) == Feed(r, c, t)
    ensures s == t
  {
    var lo := if k < |s| then k else |s|;
    var hi := if k + r.width < |s| then k + r.width else |s|;
    Surround(s, t, lo, hi);
    SurroundedWindowInjective(r, c, s[..lo], s[lo..hi], t[lo..hi], s[hi..]);
  }

  lemma Surround(s: seq<bool>, t: seq<bool>, lo: nat, hi: nat)
    requires |s| == |t| && lo <= hi <= |s|
    requires forall i :: 0 <= i < |s| && !(lo <= i < hi) ==> s[i] == t[i]
    ensures s == s[..lo] + (s[lo..hi] + s[hi..])
    ensures t == s[..lo] + (t[lo..hi] + s[hi..])
  {
  }

  // ---------- Messages of symbols that are loaded as words ----------

  /** Mix in one symbol of `width` bits as a word, turn the register that often, and go on. */
  function Absorb<S, A>(r: Register<S>, load: A -> S, width: nat, c: S, data: seq<A>): S
    decreases data
  {
    if data == [] then c else Absorb(r, load, width, Turns(r, r.mix(c, load(data[0])), width), data[1..])
  }

  /** The bits of all symbols, one symbol after the other. */
  function Flatten<A>(bits: A -> seq<bool>, data: seq<A>): seq<bool> {
    if data == [] then [] else bits(data[0]) + Flatten(bits, data[1..])
  }

  /** Absorbing symbols is feeding their bits. */
  lemma {:induction false} AbsorbIsFeed<S(!new), A(!new)>(
    r: Register<S>, load: A -> S, bits: A -> seq<bool>, width: nat, c: S, data: seq<A>)
    requires Lawful(r) && width <= r.width
    requires forall a :: |bits(a)| == width && load(a) == Word(r, bits(a))
    ensures Absorb(r, load, width, c, data) == Feed(r, c, Flatten(bits, data))
    decreases data
  {
    if data != [] {
      FeedIsWord(r, c, bits(data[0]));
      FeedConcat(r, c, bits(data[0]), Flatten(bits, data[1..]));
      AbsorbIsFeed(r, load, bits, width, Turns(r, r.mix(c, load(data[0])), width), data[1..]);
    }
  }

  lemma {:induction false} FlattenLength<A(!new)>(bits: A -> seq<bool>, width: nat, data: seq<A>)
    requires forall a :: |bits(a)| == width
    ensures |Flatten(bits, data)| == width * |data|
  {
    if data != [] {
      FlattenLength(bits, width, data[1..]);
      assert width * |data| == width + width * (|data| - 1);
    }
  }

  lemma {:induction false} FlattenConcat<A>(bits: A -> seq<bool>, x: seq<A>, y: seq<A>)
    ensures Flatten(bits, x + y) == Flatten(bits, x) + Flatten(bits, y)
  {
    if x == [] {
      assert x + y == y;
    } else {
      assert (x + y)[1..] == x[1..] + y;
      FlattenConcat(bits, x[1..], y);
    }
  }

  lemma {:induction false} FlattenInjective<A(!new)>(bits: A -> seq<bool>, width: nat, x: seq<A>, y: seq<A>)
    requires forall a :: |bits(a)| == width
    requires forall a, b :: bits(a) == bits(b) ==> a == b
    requires |x| == |y| && Flatten(bits, x) == Flatten(bits, y)
    ensures x == y
  {
    if x != [] {
      assert bits(x[0]) == Flatten(bits, x)[..width] && bits(y[0]) == Flatten(bits, y)[..width];
      assert Flatten(bits, x[1..]) == Flatten(bits, x)[width..];
      assert Flatten(bits, y[1..]) == Flatten(bits, y)[width..];
      FlattenInjective(bits, width, x[1..], y[1..]);
      assert x == [x[0]] + x[1..] && y == [y[0]] + y[1..];
    }
  }
}
