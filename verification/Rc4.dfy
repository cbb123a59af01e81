/** The RC4 stream cipher of the obfuscated SSH transport. */
module Rc4Cipher {
  import opened Bytes

  type Table = s: seq<byte> | |s| == 256 witness seq(256, _ => 0)

  /** The table and the two moving indices: everything the next keystream byte depends on. */
  datatype Rc4State = Rc4State(s: Table, i: byte, j: byte)

  function Identity(): Table
  {
    seq(256, k => k)
  }

  function Swap(s: Table, a: byte, b: byte): Table
  {
    s[a := s[b]][b := s[a]]
  }

  /** Addition that wraps around. */
  function Add8(a: byte, b: byte): byte
  {
    ((a as int) + b) % 256
  }

  /** The key, repeated. */
  function KeyAt(key: seq<byte>, n: nat): byte
    requires key != []
  {
    key[n % |key|]
  }

  /** Table and index after the first `n` rounds of key setup. */
  function KeyRounds(key: seq<byte>, n: nat): (Table, byte)
    requires key != [] && n <= 256
  {
    if n == 0 then (Identity(), 0)
    else
      var (s, j) := KeyRounds(key, n - 1);
      var j' := Add8(Add8(j, s[n - 1]), KeyAt(key, n - 1));
      (Swap(s, n - 1, j'), j')
  }

  function KeySetup(key: seq<byte>): Rc4State
    requires key != []
  {
    Rc4State(KeyRounds(key, 256).0, 0, 0)
  }

  /** The state after producing one keystream byte, and that byte. */
  function Next(st: Rc4State): Rc4State
  {
    var i := Add8(st.i, 1);
    var j := Add8(st.j, st.s[i]);
    Rc4State(Swap(st.s, i, j), i, j)
  }

  function KeyByte(st: Rc4State): byte
  {
    var n := Next(st);
    n.s[Add8(n.s[n.i], n.s[n.j])]
  }

  /** The state `n` keystream bytes later; it does not depend on the data. */
  function Advance(st: Rc4State, n: nat): Rc4State
    decreases n
  {
    if n == 0 then st else Advance(Next(st), n - 1)
  }

  function Apply(st: Rc4State, buf: seq<byte>): (out: seq<byte>)
    ensures |out| == |buf|
    decreases |buf|
  {
    if buf == [] then [] else [Xor(buf[0], KeyByte(st))] + Apply(Next(st), buf[1..])
  }

  /** One cipher run over consecutive segments. */
  function ApplySegments(st: Rc4State, segments: seq<seq<byte>>): seq<seq<byte>>
    decreases |segments|
  {
    if segments == [] then []
    else [Apply(st, segments[0])] + ApplySegments(Advance(st, |segments[0]|), segments[1..])
  }

  // ---------------------------------------------------------------- the table stays a permutation

  ghost predicate Occurs(s: Table, v: byte)
  {
    exists k :: 0 <= k < 256 && s[k] == v
  }

  /** Every byte value occurs in the table, and none occurs twice. */
  ghost predicate Permutation(s: Table)
  {
    && (forall a, b :: 0 <= a < b < 256 ==> s[a] != s[b])
    && (forall v: byte :: Occurs(s, v))
  }

  lemma SwapKeepsPermutation(s: Table, a: byte, b: byte)
    requires Permutation(s)
    ensures Permutation(Swap(s, a, b))
  {
    var t := Swap(s, a, b);
    forall v: byte
      ensures Occurs(t, v)
    {
      assert Occurs(s, v);
      var k :| 0 <= k < 256 && s[k] == v;
      assert t[if k == a then b else if k == b then a else k] == v;
    }
  }

  lemma {:induction false} KeyRoundsPermutation(key: seq<byte>, n: nat)
    requires key != [] && n <= 256
    ensures Permutation(KeyRounds(key, n).0)
  {
    hide Permutation, Swap, Identity, Add8, KeyAt;
    if n == 0 {
      IdentityPermutation();
    } else {
      KeyRoundsPermutation(key, n - 1);
      var (s, j) := KeyRounds(key, n - 1);
      SwapKeepsPermutation(s, n - 1, Add8(Add8(j, s[n - 1]), KeyAt(key, n - 1)));
    }
  }

  lemma IdentityPermutation()
    ensures Permutation(Identity())
  {
    forall v: byte
      ensures Occurs(Identity(), v)
    {
      assert Identity()[v] == v;
    }
  }

  /** After key setup and any amount of data the table is a permutation of 0..255. */
  lemma {:induction false} TableStaysPermutation(st: Rc4State, n: nat)
    requires Permutation(st.s)
    ensures Permutation(Advance(st, n).s)
    decreases n
  {
    hide Permutation, Swap, Add8;
    if n > 0 {
      var i := Add8(st.i, 1);
      SwapKeepsPermutation(st.s, i, Add8(st.j, st.s[i]));
      TableStaysPermutation(Next(st), n - 1);
    }
  }

  lemma KeySetupPermutation(key: seq<byte>, n: nat)
    requires key != []
    ensures Permutation(Advance(KeySetup(key), n).s)
  {
    hide Permutation, KeyRounds, Advance;
    KeyRoundsPermutation(key, 256);
    TableStaysPermutation(KeySetup(key), n);
  }

  // ---------------------------------------------------------------- one continuous stream

  lemma {:induction false} AdvanceAdd(st: Rc4State, m: nat, n: nat)
    ensures Advance(Advance(st, m), n) == Advance(st, m + n)
    decreases m
  {
    hide Next;
    if m > 0 { AdvanceAdd(Next(st), m - 1, n); }
  }

  /** Enciphering in two pieces is enciphering the concatenation. */
  lemma {:induction false} ApplyConcat(st: Rc4State, x: seq<byte>, y: seq<byte>)
    ensures Apply(st, x + y) == Apply(st, x) + Apply(Advance(st, |x|), y)
    decreases |x|
  {
    hide Next, KeyByte, Xor;
    if x == [] {
      assert x + y == y;
    } else {
      assert (x + y)[1..] == x[1..] + y;
      ApplyConcat(Next(st), x[1..], y);
    }
  }

  lemma ApplyOne(st: Rc4State, b: byte)
    ensures Apply(st, [b]) == [Xor(b, KeyByte(st))] && Advance(st, 1) == Next(st)
  {
    hide Next, KeyByte, Xor;
    assert [b][1..] == [];
    assert Apply(Next(st), []) == [];
  }

  lemma ApplyLast(st: Rc4State, front: seq<byte>, last: byte)
    ensures Apply(st, front + [last]) == Apply(st, front) + [Xor(last, KeyByte(Advance(st, |front|)))]
  {
    hide Next, KeyByte, Xor, Apply, Advance;
    ApplyConcat(st, front, [last]);
    ApplyOne(Advance(st, |front|), last);
  }

  lemma AdvanceLast(st: Rc4State, n: nat)
    ensures Advance(st, n + 1) == Next(Advance(st, n))
  {
    hide Next, Apply;
    AdvanceAdd(st, n, 1);
    assert Advance(Advance(st, n), 1) == Advance(Next(Advance(st, n)), 0);
  }

  lemma AdvanceNone(st: Rc4State)
    ensures Advance(st, 0) == st && Apply(st, []) == []
  {
  }

  lemma {:induction false} ApplyUndo(st: Rc4State, x: seq<byte>)
    ensures Apply(st, Apply(st, x)) == x
    decreases |x|
  {
    hide Next, KeyByte, Xor;
    if x != [] {
      XorUndo(x[0], KeyByte(st));
      ApplyUndo(Next(st), x[1..]);
      assert Apply(st, x)[1..] == Apply(Next(st), x[1..]);
    }
  }

  lemma {:induction false} SegmentsAreOneStream(st: Rc4State, segments: seq<seq<byte>>)
    ensures Flatten(ApplySegments(st, segments)) == Apply(st, Flatten(segments))
    decreases |segments|
  {
    hide Apply, Advance;
    if segments != [] {
      var first := segments[0];
      SegmentsAreOneStream(Advance(st, |first|), segments[1..]);
      ApplyConcat(st, first, Flatten(segments[1..]));
      var out := ApplySegments(st, segments);
      assert out[1..] == ApplySegments(Advance(st, |first|), segments[1..]);
    }
  }

  /** Two ciphers in the same state undo each other, however either side cuts the stream. */
  lemma CiphersUndoEachOther(st: Rc4State, sent: seq<seq<byte>>, received: seq<seq<byte>>)
    requires Flatten(received) == Flatten(ApplySegments(st, sent))
    ensures Flatten(ApplySegments(st, received)) == Flatten(sent)
  {
    hide Apply, Flatten, ApplySegments;
    SegmentsAreOneStream(st, sent);
    SegmentsAreOneStream(st, received);
    ApplyUndo(st, Flatten(sent));
  }

  // ---------------------------------------------------------------- what the rounds do to a table

  /** `t'` is `t` with the bytes at `a` and `b` in each other's place. */
  ghost predicate Exchanged(t: Table, a: byte, b: byte, t': Table)
  {
    t'[a] == t[b] && t'[b] == t[a] && forall m :: 0 <= m < 256 && m != a && m != b ==> t'[m] == t[m]
  }

  /** Round `n` of key setup adds the table's `n`-th byte and the key's, the key being repeated, to the index. */
  ghost predicate KeyRound(key: seq<byte>, tables: seq<Table>, js: seq<byte>, n: nat)
    requires key != [] && n < 256 && n + 1 < |tables| == |js|
  {
    && js[n + 1] == ((js[n] as int) + tables[n][n] + key[n % |key|]) % 256
    && Exchanged(tables[n], n, js[n + 1], tables[n + 1])
  }

  /** The tables and indices from the table 0..255 and index 0 through all rounds. */
  ghost predicate KeySchedule(key: seq<byte>, tables: seq<Table>, js: seq<byte>)
    requires key != []
  {
    && |tables| == |js| == 257 && js[0] == 0 && (forall m :: 0 <= m < 256 ==> tables[0][m] == m)
    && forall n: nat :: n < 256 ==> KeyRound(key, tables, js, n)
  }

  lemma TablesEqual(t: Table, u: Table)
    requires forall m :: 0 <= m < 256 ==> t[m] == u[m]
    ensures t == u
  {
  }

  lemma SwapExchanges(t: Table, a: byte, b: byte, t': Table)
    ensures Exchanged(t, a, b, t') <==> t' == Swap(t, a, b)
  {
    if Exchanged(t, a, b, t') { TablesEqual(t', Swap(t, a, b)); }
  }

  lemma Add8Twice(j: byte, a: byte, k: byte)
    ensures Add8(Add8(j, a), k) == ((j as int) + a + k) % 256
  {
  }

  function Tables(key: seq<byte>): (tables: seq<Table>)
    requires key != []
    ensures |tables| == 257 && forall n :: 0 <= n <= 256 ==> tables[n] == KeyRounds(key, n).0
  {
    seq(257, n requires 0 <= n < 257 => KeyRounds(key, n).0)
  }

  function Indices(key: seq<byte>): (js: seq<byte>)
    requires key != []
    ensures |js| == 257 && forall n :: 0 <= n <= 256 ==> js[n] == KeyRounds(key, n).1
  {
    seq(257, n requires 0 <= n < 257 => KeyRounds(key, n).1)
  }

  /** Key setup is the last table of the key schedule. */
  lemma SetupIsSchedule(key: seq<byte>)
    requires key != []
    ensures KeySchedule(key, Tables(key), Indices(key)) && KeySetup(key) == Rc4State(Tables(key)[256], 0, 0)
  {
    hide Tables, Indices, Exchanged, Swap, Add8;
    var tables, js := Tables(key), Indices(key);
    forall n: nat | n < 256
      ensures KeyRound(key, tables, js, n)
    {
      assert tables[n] == KeyRounds(key, n).0 && js[n] == KeyRounds(key, n).1;
      Add8Twice(js[n], tables[n][n], KeyAt(key, n));
      SwapExchanges(tables[n], n, js[n + 1], tables[n + 1]);
    }
  }

  /** There is no other. */
  lemma {:induction false} ScheduleIsSetup(key: seq<byte>, tables: seq<Table>, js: seq<byte>, n: nat)
    requires key != [] && KeySchedule(key, tables, js) && n <= 256
    ensures (tables[n], js[n]) == KeyRounds(key, n)
  {
    hide Exchanged, Swap, Add8;
    if n == 0 {
      TablesEqual(tables[0], Identity());
    } else {
      ScheduleIsSetup(key, tables, js, n - 1);
      assert KeyRound(key, tables, js, n - 1);
      Add8Twice(js[n - 1], tables[n - 1][n - 1], KeyAt(key, n - 1));
      SwapExchanges(tables[n - 1], n - 1, js[n], tables[n]);
    }
  }

  /** Tables and indices after `n` rounds depend on no more than the first `n` bytes of the repeated key. */
  lemma {:induction false} RoundsAgree(key1: seq<byte>, key2: seq<byte>, n: nat)
    requires key1 != [] && key2 != [] && n <= 256
    requires forall m: nat :: m < n ==> KeyAt(key1, m) == KeyAt(key2, m)
    ensures KeyRounds(key1, n) == KeyRounds(key2, n)
  {
    hide Swap, Add8, KeyAt;
    if n > 0 { RoundsAgree(key1, key2, n - 1); }
  }

  lemma SumsDiffer(a: nat, k1: byte, k2: byte)
    requires k1 != k2
    ensures (a + k1) % 256 != (a + k2) % 256
  {
  }

  lemma ExchangesDiffer(t: Table, n: byte, a: byte, b: byte)
    requires Permutation(t) && a != b
    ensures Swap(t, n, a) != Swap(t, n, b)
  {
    hide Occurs;
    assert Swap(t, n, a)[a] == t[n] && Swap(t, n, b)[b] == t[n];
    SwapKeepsPermutation(t, n, a);
  }

  /** The first byte at which two keys, repeated, differ sends their schedules apart. */
  lemma KeysSeparate(
    key1: seq<byte>, tables1: seq<Table>, js1: seq<byte>, key2: seq<byte>, tables2: seq<Table>, js2: seq<byte>, n: nat)
    requires key1 != [] && KeySchedule(key1, tables1, js1) && key2 != [] && KeySchedule(key2, tables2, js2)
    requires n < 256 && key1[n % |key1|] != key2[n % |key2|]
    requires forall m: nat :: m < n ==> KeyAt(key1, m) == KeyAt(key2, m)
    ensures forall m :: 0 <= m <= n ==> tables1[m] == tables2[m] && js1[m] == js2[m]
    ensures js1[n + 1] != js2[n + 1] && tables1[n + 1] != tables2[n + 1]
  {
    hide Exchanged, Swap, KeyRounds, Permutation;
    forall m: nat | m <= n
      ensures tables1[m] == tables2[m] && js1[m] == js2[m]
    {
      ScheduleIsSetup(key1, tables1, js1, m);
      ScheduleIsSetup(key2, tables2, js2, m);
      RoundsAgree(key1, key2, m);
    }
    assert KeyRound(key1, tables1, js1, n) && KeyRound(key2, tables2, js2, n);
    SumsDiffer((js1[n] as int) + tables1[n][n], key1[n % |key1|], key2[n % |key2|]);
    ScheduleIsSetup(key1, tables1, js1, n);
    KeyRoundsPermutation(key1, n);
    SwapExchanges(tables1[n], n, js1[n + 1], tables1[n + 1]);
    SwapExchanges(tables2[n], n, js2[n + 1], tables2[n + 1]);
    ExchangesDiffer(tables1[n], n, js1[n + 1], js2[n + 1]);
  }

  /** The indices move on, two bytes of the table change places, and their sum says which byte comes out. */
  ghost predicate Produces(st: Rc4State, st': Rc4State, k: byte)
  {
    && st'.i == ((st.i as int) + 1) % 256
    && st'.j == ((st.j as int) + st.s[st'.i]) % 256
    && Exchanged(st.s, st'.i, st'.j, st'.s)
    && k == st'.s[((st'.s[st'.i] as int) + st'.s[st'.j]) % 256]
  }

  lemma NextProduces(st: Rc4State)
    ensures Produces(st, Next(st), KeyByte(st))
  {
    hide Exchanged, Swap;
    var n := Next(st);
    SwapExchanges(st.s, n.i, n.j, n.s);
  }

  ghost predicate Enciphered(states: seq<Rc4State>, keystream: seq<byte>, buf: seq<byte>, out: seq<byte>, n: nat)
    requires n < |buf| == |out| == |keystream| == |states| - 1
  {
    Produces(states[n], states[n + 1], keystream[n]) && out[n] == Xor(buf[n], keystream[n])
  }

  /** Each byte of `buf` is combined with a byte of the keystream from the first state to the last. */
  ghost predicate Enciphers(states: seq<Rc4State>, keystream: seq<byte>, buf: seq<byte>, out: seq<byte>)
  {
    && |buf| == |out| == |keystream| == |states| - 1
    && forall n: nat :: n < |buf| ==> Enciphered(states, keystream, buf, out, n)
  }

  function States(st: Rc4State, n: nat): (states: seq<Rc4State>)
    ensures |states| == n + 1 && forall k :: 0 <= k <= n ==> states[k] == Advance(st, k)
  {
    seq(n + 1, k requires 0 <= k <= n => Advance(st, k))
  }

  function Keystream(st: Rc4State, n: nat): (keystream: seq<byte>)
    ensures |keystream| == n && forall k :: 0 <= k < n ==> keystream[k] == KeyByte(Advance(st, k))
  {
    seq(n, k requires 0 <= k < n => KeyByte(Advance(st, k)))
  }

  lemma {:induction false} ApplyAt(st: Rc4State, buf: seq<byte>, k: nat)
    requires k < |buf|
    ensures Apply(st, buf)[k] == Xor(buf[k], KeyByte(Advance(st, k)))
    decreases k
  {
    hide Next, KeyByte, Xor;
    if k > 0 { ApplyAt(Next(st), buf[1..], k - 1); }
  }

  lemma ApplyEnciphers(st: Rc4State, buf: seq<byte>)
    ensures Enciphers(States(st, |buf|), Keystream(st, |buf|), buf, Apply(st, buf))
  {
    hide Next, KeyByte, Xor, Apply, Advance, Produces, States, Keystream;
    forall k: nat | k < |buf|
      ensures Enciphered(States(st, |buf|), Keystream(st, |buf|), buf, Apply(st, buf), k)
    {
      ApplyAt(st, buf, k);
      AdvanceLast(st, k);
      NextProduces(Advance(st, k));
    }
  }

  // ---------------------------------------------------------------- the cipher object

  /** The cipher as the program holds it: one array swapped in place. */
  class Rc4 {
    const s: array<byte>
    var i: byte
    var j: byte

    ghost predicate Valid()
      reads this
    {
      s.Length == 256
    }

    ghost function State(): Rc4State
      reads this, s
      requires Valid()
    {
      Rc4State(s[..], i, j)
    }

    constructor (key: seq<byte>)
      requires key != []
      ensures Valid() && fresh(s)
      ensures State() == KeySetup(key) && i == 0 && j == 0
      ensures exists tables, js :: KeySchedule(key, tables, js) && s[..] == tables[256]
    {
      hide Add8, KeyAt;
      var table := new byte[256](k => if 0 <= k < 256 then k else 0);
      s := table;
      i, j := 0, 0;
      new;
      assert s[..] == Identity();
      var y: byte := 0;
      for x := 0 to 256
        invariant fresh(s) && i == 0 && j == 0
        invariant (s[..], y) == KeyRounds(key, x)
      {
        ghost var before := s[..];
        y := Add8(Add8(y, s[x]), KeyAt(key, x));
        s[x], s[y] := s[y], s[x];
        assert s[..] == Swap(before, x, y);
      }
      SetupIsSchedule(key);
    }

    /** Moves the indices, swaps in place and picks the next keystream byte. */
    method NextByte() returns (k: byte)
      requires Valid()
      modifies this, s
      ensures State() == Next(old(State())) && k == KeyByte(old(State()))
      ensures i == ((old(i) as int) + 1) % 256 && j == ((old(j) as int) + old(s[..])[i]) % 256
      ensures s[i] == old(s[..])[j] && s[j] == old(s[..])[i] && k == s[((s[i] as int) + s[j]) % 256]
      ensures forall m :: 0 <= m < 256 && m != i && m != j ==> s[m] == old(s[..])[m]
    {
      hide Add8, Swap;
      i := Add8(i, 1);
      j := Add8(j, s[i]);
      s[i], s[j] := s[j], s[i];
      SwapExchanges(old(s[..]), i, j, s[..]);
      k := s[Add8(s[i], s[j])];
      NextProduces(old(State()));
    }

    /** Enciphers (or deciphers) `buf`, moving the keystream past it. */
    method Run(buf: seq<byte>) returns (out: seq<byte>)
      requires Valid()
      modifies this, s
      ensures out == Apply(old(State()), buf)
      ensures State() == Advance(old(State()), |buf|)
      ensures exists states, keystream ::
        Enciphers(states, keystream, buf, out) && states[0] == old(State()) && states[|buf|] == State()
    {
      hide Next, KeyByte, Xor, Apply, Advance;
      out := [];
      AdvanceNone(State());
      ghost var start := State();
      for n := 0 to |buf|
        invariant State() == Advance(start, n)
        invariant out == Apply(start, buf[..n])
      {
        var k := NextByte();
        out := out + [Xor(buf[n], k)];
        AdvanceLast(start, n);
        ApplyLast(start, buf[..n], buf[n]);
        assert buf[..n + 1] == buf[..n] + [buf[n]];
      }
      assert buf[..|buf|] == buf;
      ApplyEnciphers(start, buf);
    }
  }
}
