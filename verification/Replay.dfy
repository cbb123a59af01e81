/** The sliding replay window of the data channel: a 64-bit word that stands for a set of ids. */
module Replay {
  import opened Bytes

  const WINDOW: nat := 64

  // ---------------------------------------------------------------- words

  /** Intersection of the low `n` bits of two words. */
  function AndBits(a: nat, b: nat, n: nat): nat
  {
    if n == 0 then 0
    else (if a % 2 == 1 && b % 2 == 1 then 1 else 0) + 2 * AndBits(a / 2, b / 2, n - 1)
  }

  function LowBits(w: nat, n: nat): nat
  {
    if n == 0 then 0 else w % 2 + 2 * LowBits(w / 2, n - 1)
  }

  /** `w << shift` on a 64-bit word. */
  function Shl(w: nat, shift: nat): nat
  {
    LowBits(Doubled(w, shift), WINDOW)
  }

  /** `w | mask` and `w & mask` on 64-bit words, and `1 << k`. */
  function Or64(w: nat, mask: nat): nat
  {
    OrBits(w, mask, WINDOW)
  }

  function And64(w: nat, mask: nat): nat
  {
    AndBits(w, mask, WINDOW)
  }

  function One(k: nat): nat
  {
    Doubled(1, k)
  }

  lemma {:induction false} LowBitsMeaning(w: nat, n: nat, k: nat)
    ensures Bit(LowBits(w, n), k) <==> k < n && Bit(w, k)
    decreases n, k
  {
    if n == 0 {
      NoBits(k);
    } else {
      Halve(w % 2, LowBits(w / 2, n - 1));
      if k > 0 { LowBitsMeaning(w / 2, n - 1, k - 1); }
    }
  }

  lemma {:induction false} NoBits(k: nat)
    ensures !Bit(0, k)
  {
    if k > 0 { NoBits(k - 1); }
  }

  lemma {:induction false} DoubledMeaning(w: nat, times: nat, k: nat)
    ensures Bit(Doubled(w, times), k) <==> k >= times && Bit(w, k - times)
    decreases times
  {
    if times > 0 {
      Halve(0, Doubled(w, times - 1));
      if k > 0 { DoubledMeaning(w, times - 1, k - 1); }
    }
  }

  lemma {:induction false} AndBitsMeaning(a: nat, b: nat, n: nat, k: nat)
    requires k < n
    ensures Bit(AndBits(a, b, n), k) <==> Bit(a, k) && Bit(b, k)
  {
    Halve(if a % 2 == 1 && b % 2 == 1 then 1 else 0, AndBits(a / 2, b / 2, n - 1));
    if k > 0 { AndBitsMeaning(a / 2, b / 2, n - 1, k - 1); }
  }

  lemma {:induction false} AndBitsNonzero(a: nat, b: nat, n: nat) returns (k: nat)
    requires AndBits(a, b, n) != 0
    ensures k < n && Bit(a, k) && Bit(b, k)
  {
    if a % 2 == 1 && b % 2 == 1 {
      k := 0;
    } else {
      k := AndBitsNonzero(a / 2, b / 2, n - 1);
      k := k + 1;
    }
  }

  lemma OneMeaning(m: nat, k: nat)
    ensures Bit(One(m), k) <==> k == m
  {
    DoubledMeaning(1, m, k);
    if k > m {
      assert Bit(1, k - m) == Bit(1 / 2, k - m - 1);
      NoBits(k - m - 1);
    }
  }

  lemma ShlMeaning(w: nat, shift: nat, k: nat)
    requires k < WINDOW
    ensures Bit(Shl(w, shift), k) <==> k >= shift && Bit(w, k - shift)
  {
    LowBitsMeaning(Doubled(w, shift), WINDOW, k);
    DoubledMeaning(w, shift, k);
  }

  lemma SetMeaning(w: nat, m: nat, k: nat)
    requires k < WINDOW
    ensures Bit(Or64(w, One(m)), k) <==> k == m || Bit(w, k)
  {
    OrBitsMeaning(w, One(m), WINDOW, k);
    OneMeaning(m, k);
  }

  lemma TestMeaning(w: nat, m: nat)
    requires m < WINDOW
    ensures And64(w, One(m)) != 0 <==> Bit(w, m)
  {
    OneMeaning(m, m);
    AndBitsMeaning(w, One(m), WINDOW, m);
    NoBits(m);
    if And64(w, One(m)) != 0 {
      var k := AndBitsNonzero(w, One(m), WINDOW);
      OneMeaning(m, k);
    }
  }

  // ---------------------------------------------------------------- the window

  /** The highest id accepted, and bit k for the id k below it. */
  datatype Window = Window(last: u32, bits: nat)

  datatype Verdict = Verdict(ok: bool, window: Window)

  const EMPTY: Window := Window(0, 0)

  function Judge(w: Window, id: u32): Verdict
  {
    if id == 0 then Verdict(false, w)
    else if id > w.last then
      var shift := id - w.last;
      Verdict(true, Window(id, Or64(if shift >= WINDOW then 0 else Shl(w.bits, shift), One(0))))
    else if w.last - id >= WINDOW then Verdict(false, w)
    else if And64(w.bits, One(w.last - id)) != 0 then Verdict(false, w)
    else Verdict(true, w.(bits := Or64(w.bits, One(w.last - id))))
  }

  /** The window as the program holds it. */
  class ReplayWindow {
    var last: u32
    var bits: nat

    ghost function State(): Window
      reads this
    {
      Window(last, bits)
    }

    constructor ()
      ensures State() == EMPTY
    {
      last, bits := 0, 0;
    }

    method Accept(id: u32) returns (ok: bool)
      modifies this
      ensures Verdict(ok, State()) == Judge(old(State()), id)
    {
      hide Or64, And64, Shl, One;
      if id == 0 {
        return false;
      }
      if id > last {
        var shift := id - last;
        if shift >= WINDOW {
          bits := 0;
        } else {
          bits := Shl(bits, shift);
        }
        bits := Or64(bits, One(0));
        last := id;
        return true;
      }
      var behind := last - id;
      if behind >= WINDOW {
        return false;
      }
      var mask := One(behind);
      if And64(bits, mask) != 0 {
        return false;
      }
      bits := Or64(bits, mask);
      return true;
    }
  }

  // ---------------------------------------------------------------- the word refines a set

  /** The reference: accept what is new and less than 64 below everything accepted before. */
  ghost predicate Acceptable(seen: set<int>, id: u32)
  {
    id != 0 && id !in seen && forall s :: s in seen ==> s < id + WINDOW
  }

  /** The word says of each of the 64 ids up to the highest whether it has been accepted. */
  ghost predicate Tracks(w: Window, seen: set<int>)
  {
    && (forall s :: s in seen ==> 0 < s <= w.last)
    && (w.last != 0 ==> w.last in seen)
    && (forall k :: 0 <= k < WINDOW ==> (Bit(w.bits, k) <==> w.last - k in seen))
  }

  lemma EmptyTracks()
    ensures Tracks(EMPTY, {})
  {
    forall k | 0 <= k < WINDOW
      ensures !Bit(0, k)
    {
      NoBits(k);
    }
  }

  lemma AcceptAhead(w: Window, seen: set<int>, id: u32)
    requires Tracks(w, seen) && id > w.last
    ensures Judge(w, id).ok && Tracks(Judge(w, id).window, seen + {id})
  {
    hide Or64, And64, Shl, One;
    var shift := id - w.last;
    var moved := if shift >= WINDOW then 0 else Shl(w.bits, shift);
    var w' := Judge(w, id).window;
    forall k | 0 <= k < WINDOW
      ensures Bit(w'.bits, k) <==> id - k in seen + {id}
    {
      SetMeaning(moved, 0, k);
      if shift >= WINDOW {
        NoBits(k);
      } else {
        ShlMeaning(w.bits, shift, k);
        if k >= shift { assert Bit(w.bits, k - shift) <==> w.last - (k - shift) in seen; }
      }
    }
  }

  lemma AcceptBehind(w: Window, seen: set<int>, id: u32)
    requires Tracks(w, seen) && 0 < id <= w.last && w.last - id < WINDOW
    ensures Judge(w, id).ok <==> id !in seen
    ensures Tracks(Judge(w, id).window, seen + {id})
  {
    hide Or64, And64, Shl, One;
    var behind := w.last - id;
    TestMeaning(w.bits, behind);
    assert Bit(w.bits, behind) <==> w.last - behind in seen;
    if id in seen {
      assert seen + {id} == seen;
    } else {
      forall k | 0 <= k < WINDOW
        ensures Bit(Or64(w.bits, One(behind)), k) <==> w.last - k in seen + {id}
      {
        SetMeaning(w.bits, behind, k);
        assert Bit(w.bits, k) <==> w.last - k in seen;
      }
    }
  }

  /** One call decides as the set does, and the word goes on tracking the set. */
  lemma AcceptRefinesSet(w: Window, seen: set<int>, id: u32)
    requires Tracks(w, seen)
    ensures Judge(w, id).ok <==> Acceptable(seen, id)
    ensures Tracks(Judge(w, id).window, if Judge(w, id).ok then seen + {id as int} else seen)
  {
    hide Or64, And64, Shl, One;
    if id > w.last {
      AcceptAhead(w, seen, id);
    } else if id != 0 && w.last - id < WINDOW {
      AcceptBehind(w, seen, id);
      if id in seen { assert seen + {id as int} == seen; }
    } else if id != 0 {
      assert w.last in seen;
    }
  }

  // ---------------------------------------------------------------- whole runs

  function Run(w: Window, ids: seq<u32>): Window
  {
    if ids == [] then w else Judge(Run(w, ids[..|ids| - 1]), ids[|ids| - 1]).window
  }

  /** Whether the `i`-th call of a run from a fresh window accepts. */
  predicate Accepted(ids: seq<u32>, i: nat)
    requires i < |ids|
  {
    Judge(Run(EMPTY, ids[..i]), ids[i]).ok
  }

  /** The ids accepted in the first `n` calls. */
  ghost function Seen(ids: seq<u32>, n: nat): set<int>
    requires n <= |ids|
  {
    set i | 0 <= i < n && Accepted(ids, i) :: ids[i] as int
  }

  lemma SeenOneMore(ids: seq<u32>, n: nat)
    requires n < |ids|
    ensures Seen(ids, n + 1) == if Accepted(ids, n) then Seen(ids, n) + {ids[n] as int} else Seen(ids, n)
  {
    hide Accepted;
  }

  lemma {:induction false} RunTracks(ids: seq<u32>, n: nat)
    requires n <= |ids|
    ensures Tracks(Run(EMPTY, ids[..n]), Seen(ids, n))
  {
    hide Judge, Tracks, Acceptable;
    if n == 0 {
      EmptyTracks();
      assert Seen(ids, 0) == {};
    } else {
      var before := Run(EMPTY, ids[..n - 1]);
      RunTracks(ids, n - 1);
      AcceptRefinesSet(before, Seen(ids, n - 1), ids[n - 1]);
      assert ids[..n][..n - 1] == ids[..n - 1];
      SeenOneMore(ids, n - 1);
    }
  }

  /** In every run, a call accepts exactly when its id is nonzero, unseen and inside the window. */
  lemma AcceptedIff(ids: seq<u32>, i: nat)
    requires i < |ids|
    ensures Accepted(ids, i) <==> Acceptable(Seen(ids, i), ids[i])
  {
    hide Judge;
    RunTracks(ids, i);
    AcceptRefinesSet(Run(EMPTY, ids[..i]), Seen(ids, i), ids[i]);
  }

  lemma NeverTwice(ids: seq<u32>, i: nat, j: nat)
    requires i < j < |ids| && ids[i] == ids[j] && Accepted(ids, i)
    ensures !Accepted(ids, j)
  {
    hide Judge;
    AcceptedIff(ids, j);
    assert ids[i] as int in Seen(ids, j);
  }

  /** Distinct ids that all lie within 64 of each other are all accepted, in any order. */
  lemma BandAccepted(ids: seq<u32>, i: nat)
    requires i < |ids|
    requires forall a :: 0 <= a < |ids| ==> ids[a] != 0
    requires forall a, b :: 0 <= a < b < |ids| ==> ids[a] != ids[b]
    requires forall a, b :: 0 <= a < |ids| && 0 <= b < |ids| ==> ids[a] < ids[b] + WINDOW
    ensures Accepted(ids, i)
  {
    hide Judge;
    AcceptedIff(ids, i);
  }
}
