/** The Serpent key schedule: the prekey recurrence and the round keys in bitsliced form. */
module SerpentKeys {
  import opened Words
  import opened Serpent

  const PHI: bv32 := 0x9e3779b9

  /** One step of the recurrence on w[i-8], w[i-5], w[i-3] and w[i-1]. */
  function Affine(a: bv32, b: bv32, c: bv32, d: bv32, i: nat): bv32 {
    Rol(Xor(Xor(Xor(Xor(Xor(a, b), c), d), PHI), ToByte(i) as bv32), 11)
  }

  type Recurrence = (bv32, bv32, bv32, bv32, nat) -> bv32

  /** The words w[-8], w[-7], ... of the specification, counted from zero: the key, then the recurrence. */
  function Prekey(f: Recurrence, key: seq<bv32>, i: nat): bv32
    requires |key| == 8
    decreases i, key
  {
    if i < 8 then key[i]
    else f(Prekey(f, key, i - 8), Prekey(f, key, i - 5), Prekey(f, key, i - 3), Prekey(f, key, i - 1), i - 8)
  }

  /** Round key g: the S-box with index 3 - g modulo 8 on four consecutive prekey words. */
  function RoundKeys(o: Ops<bv32>, f: Recurrence, key: seq<bv32>): nat -> Quad<bv32>
    requires |key| == 8
  {
    (g: nat) =>
      SboxOf<bv32>(NextBox(g))(o, Quad(Prekey(f, key, 8 + 4 * g), Prekey(f, key, 9 + 4 * g),
                                       Prekey(f, key, 10 + 4 * g), Prekey(f, key, 11 + 4 * g)))
  }

  /** 3 - g modulo 8. */
  function NextBox(g: nat): nat {
    (3 + 7 * g) % 8
  }

  function Pick<W>(q: Quad<W>, j: nat): W {
    match j case 0 => q.x0 case 1 => q.x1 case 2 => q.x2 case _ => q.x3
  }

  function KeyWords(key: seq<bv8>): seq<bv32>
    requires |key| == 32
  {
    seq(8, (i: nat) requires i < 8 => Load32(key, 4 * i))
  }

  /** The words of thirty-three round keys in a row. */
  function InARow(rk: nat -> Quad<bv32>): (k: seq<bv32>)
    ensures |k| == 132
  {
    seq(132, (i: nat) => Pick(rk(i / 4), i % 4))
  }

  function ExpandKey(key: seq<bv8>): (k: seq<bv32>)
    requires |key| == 32
    ensures |k| == 132
  {
    InARow(RoundKeys(WordOps, Affine, KeyWords(key)))
  }

  /** The switch of the schedule: sE4 is S3 and so on downwards. */
  method ScheduleBox(g: nat) returns (sb: Gates<bv32>)
    ensures sb == SboxOf<bv32>(NextBox(g))
  {
    match g % 8 {
      case 0 => sb := S3;
      case 1 => sb := S2;
      case 2 => sb := S1;
      case 3 => sb := S0;
      case 4 => sb := S7;
      case 5 => sb := S6;
      case 6 => sb := S5;
      case _ => sb := S4;
    }
  }

  method FillPrekeys(f: Recurrence, key: seq<bv32>, ws: array<bv32>)
    requires |key| == 8 && ws.Length == 140
    modifies ws
    ensures forall i: nat | i < 140 :: ws[i] == Prekey(f, key, i)
  {
    for i := 0 to 8
      invariant forall j: nat | j < i :: ws[j] == Prekey(f, key, j)
    {
      ws[i] := key[i];
    }
    for i := 0 to 132
      invariant forall j: nat | j < i + 8 :: ws[j] == Prekey(f, key, j)
    {
      ws[i + 8] := f(ws[i], ws[i + 3], ws[i + 5], ws[i + 7], i);
    }
  }

  method StoreQuad(k: array<bv32>, g: nat, q: Quad<bv32>)
    requires k.Length == 132 && g < 33
    modifies k
    ensures forall i: nat | i < 132 :: k[i] == if i / 4 == g then Pick(q, i % 4) else old(k[i])
  {
    k[g * 4] := q.x0;
    k[g * 4 + 1] := q.x1;
    k[g * 4 + 2] := q.x2;
    k[g * 4 + 3] := q.x3;
  }

  method FillRoundKeys(o: Ops<bv32>, ghost f: Recurrence, ghost key: seq<bv32>, ws: array<bv32>, k: array<bv32>)
    requires |key| == 8 && ws.Length == 140 && k.Length == 132 && ws != k
    requires forall i: nat | i < 140 :: ws[i] == Prekey(f, key, i)
    modifies k
    ensures k[..] == InARow(RoundKeys(o, f, key))
  {
    ghost var rk := RoundKeys(o, f, key);
    for g := 0 to 33
      invariant forall i: nat | i < 4 * g :: k[i] == Pick(rk(i / 4), i % 4)
    {
      var sb := ScheduleBox(g);
      var q := sb(o, Quad(ws[8 + g * 4], ws[9 + g * 4], ws[10 + g * 4], ws[11 + g * 4]));
      assert q == rk(g);
      StoreQuad(k, g, q);
    }
  }

  /** serpent256_set_key. */
  method SetKey(key: seq<bv8>, k: array<bv32>)
    requires |key| == 32 && k.Length == 132
    modifies k
    ensures k[..] == ExpandKey(key)
  {
    var ws := new bv32[140];
    FillPrekeys(Affine, KeyWords(key), ws);
    FillRoundKeys(WordOps, Affine, KeyWords(key), ws, k);
  }
}
