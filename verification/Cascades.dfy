/** Cascades of XTS passes: each pass runs over the whole output of the one before. */
module Cascades {
  import opened Xts

  function Cascade<S, T>(ms: seq<Mode<S, T>>, offset: nat, data: seq<S>): (r: seq<S>)
    ensures |r| == |data|
  {
    if ms == [] then data else Cascade(ms[1..], offset, Crypt(ms[0], SectorOf(offset), data))
  }

  /** The passes in reverse order. */
  function Uncascade<S, T>(ms: seq<Mode<S, T>>, offset: nat, data: seq<S>): (r: seq<S>)
    ensures |r| == |data|
  {
    if ms == [] then data else Crypt(ms[0], SectorOf(offset), Uncascade(ms[1..], offset, data))
  }

  /** Pass by pass, back has the tweaks of forth and the inverse block transform. */
  ghost predicate Undoing<S(!new), T(!new)>(forth: seq<Mode<S, T>>, back: seq<Mode<S, T>>) {
    && |forth| == |back|
    && forall i | 0 <= i < |forth| :: back[i] == forth[i].(crypt := back[i].crypt) && Undoes(forth[i], back[i].crypt)
  }

  lemma {:induction false} CascadeUndone<S(!new), T(!new)>(forth: seq<Mode<S, T>>, back: seq<Mode<S, T>>,
                                                          offset: nat, data: seq<S>)
    requires Undoing(forth, back)
    ensures Uncascade(back, offset, Cascade(forth, offset, data)) == data
  {
    if forth != [] {
      CascadeUndone(forth[1..], back[1..], offset, Crypt(forth[0], SectorOf(offset), data));
      RoundTrip(forth[0], back[0].crypt, SectorOf(offset), data);
    }
  }

  /** One call over two runs is two calls, the second at the offset where the first one ends. */
  lemma {:induction false} CascadeSplits<S, T>(ms: seq<Mode<S, T>>, offset: nat, a: seq<S>, b: seq<S>)
    requires |a| % 32 == 0
    ensures Cascade(ms, offset, a + b) == Cascade(ms, offset, a) + Cascade(ms, offset + 16 * |a|, b)
  {
    if ms != [] {
      var a', b' := Crypt(ms[0], SectorOf(offset), a), Crypt(ms[0], SectorOf(offset + 16 * |a|), b);
      CallsSplit(ms[0], offset, a, b);
      CascadeSplits(ms[1..], offset, a', b');
    }
  }

  lemma {:induction false} UncascadeSplits<S, T>(ms: seq<Mode<S, T>>, offset: nat, a: seq<S>, b: seq<S>)
    requires |a| % 32 == 0
    ensures Uncascade(ms, offset, a + b) == Uncascade(ms, offset, a) + Uncascade(ms, offset + 16 * |a|, b)
  {
    if ms != [] {
      var a', b' := Uncascade(ms[1..], offset, a), Uncascade(ms[1..], offset + 16 * |a|, b);
      UncascadeSplits(ms[1..], offset, a, b);
      CallsSplit(ms[0], offset, a', b');
      assert Uncascade(ms, offset, a + b) == Crypt(ms[0], SectorOf(offset), a' + b');
    }
  }

  /** A block of the result of decryption depends on that block of the ciphertext alone. */
  lemma {:induction false} UncascadeIsLocal<S, T>(ms: seq<Mode<S, T>>, offset: nat, x: seq<S>, y: seq<S>, i: nat)
    requires |x| == |y| && i < |x| && x[i] == y[i]
    ensures Uncascade(ms, offset, x)[i] == Uncascade(ms, offset, y)[i]
  {
    if ms != [] {
      UncascadeIsLocal(ms[1..], offset, x, y, i);
    }
  }

  lemma {:induction false} CascadeIsLocal<S, T>(ms: seq<Mode<S, T>>, offset: nat, x: seq<S>, y: seq<S>, i: nat)
    requires |x| == |y| && i < |x| && x[i] == y[i]
    ensures Cascade(ms, offset, x)[i] == Cascade(ms, offset, y)[i]
  {
    if ms != [] {
      var first := SectorOf(offset);
      CascadeIsLocal(ms[1..], offset, Crypt(ms[0], first, x), Crypt(ms[0], first, y), i);
    }
  }

  /** Two texts have the same ciphertext in a block exactly when they agree in that block. */
  lemma SealedBlocksDiffer<S(!new), T(!new)>(forth: seq<Mode<S, T>>, back: seq<Mode<S, T>>, offset: nat,
                                             x: seq<S>, y: seq<S>, i: nat)
    requires Undoing(forth, back) && |x| == |y| && i < |x|
    ensures x[i] == y[i] <==> Cascade(forth, offset, x)[i] == Cascade(forth, offset, y)[i]
  {
    var x', y' := Cascade(forth, offset, x), Cascade(forth, offset, y);
    if x[i] == y[i] {
      CascadeIsLocal(forth, offset, x, y, i);
    }
    if x'[i] == y'[i] {
      CascadeUndone(forth, back, offset, x);
      CascadeUndone(forth, back, offset, y);
      UncascadeIsLocal(back, offset, x', y', i);
    }
  }

  /**
   A sealed file whose first ciphertext blocks are overwritten, with its salt or with anything else, decrypts to the
   original from there on.
   */
  lemma SaltedTailSurvives<S(!new), T(!new)>(forth: seq<Mode<S, T>>, back: seq<Mode<S, T>>, offset: nat,
                                             file: seq<S>, salt: seq<S>)
    requires Undoing(forth, back) && |salt| <= |file|
    ensures Uncascade(back, offset, salt + Cascade(forth, offset, file)[|salt|..])[|salt|..] == file[|salt|..]
  {
    var sealed := Cascade(forth, offset, file);
    var salted := salt + sealed[|salt|..];
    CascadeUndone(forth, back, offset, file);
    forall i | |salt| <= i < |file|
      ensures Uncascade(back, offset, salted)[i] == file[i]
    {
      UncascadeIsLocal(back, offset, salted, sealed, i);
    }
  }

  lemma OneCascade<S, T>(a: Mode<S, T>, offset: nat, data: seq<S>)
    ensures Cascade([a], offset, data) == Crypt(a, SectorOf(offset), data)
  {
    assert [a][1..] == [];
    assert Cascade([a][1..], offset, Crypt(a, SectorOf(offset), data)) == Crypt(a, SectorOf(offset), data);
  }

  lemma TwoCascade<S, T>(a: Mode<S, T>, b: Mode<S, T>, offset: nat, data: seq<S>)
    ensures Cascade([a, b], offset, data) == Crypt(b, SectorOf(offset), Crypt(a, SectorOf(offset), data))
  {
    assert [a, b][1..] == [b];
    OneCascade(b, offset, Crypt(a, SectorOf(offset), data));
  }

  lemma ThreeCascade<S, T>(a: Mode<S, T>, b: Mode<S, T>, c: Mode<S, T>, offset: nat, data: seq<S>)
    ensures Cascade([a, b, c], offset, data)
         == Crypt(c, SectorOf(offset), Crypt(b, SectorOf(offset), Crypt(a, SectorOf(offset), data)))
  {
    assert [a, b, c][1..] == [b, c];
    TwoCascade(b, c, offset, Crypt(a, SectorOf(offset), data));
  }

  lemma OneUncascade<S, T>(a: Mode<S, T>, offset: nat, data: seq<S>)
    ensures Uncascade([a], offset, data) == Crypt(a, SectorOf(offset), data)
  {
    assert [a][1..] == [];
    assert Uncascade([a][1..], offset, data) == data;
  }

  lemma TwoUncascade<S, T>(a: Mode<S, T>, b: Mode<S, T>, offset: nat, data: seq<S>)
    ensures Uncascade([a, b], offset, data) == Crypt(a, SectorOf(offset), Crypt(b, SectorOf(offset), data))
  {
    assert [a, b][1..] == [b];
    OneUncascade(b, offset, data);
  }

  lemma ThreeUncascade<S, T>(a: Mode<S, T>, b: Mode<S, T>, c: Mode<S, T>, offset: nat, data: seq<S>)
    ensures Uncascade([a, b, c], offset, data)
         == Crypt(a, SectorOf(offset), Crypt(b, SectorOf(offset), Crypt(c, SectorOf(offset), data)))
  {
    assert [a, b, c][1..] == [b, c];
    TwoUncascade(b, c, offset, data);
  }
}
