/** Bytes, and numbers of a fixed width as bytes in either order. */
module Bytes {
  type Byte = b: int | 0 <= b < 0x100

  function Pow256(width: nat): (p: nat)
    ensures p > 0
  {
    if width == 0 then 1 else 0x100 * Pow256(width - 1)
  }

  /** The low `width` bytes of `n`, most significant first; what does not fit is dropped. */
  function ToBigEndian(n: nat, width: nat): (s: seq<Byte>)
    ensures |s| == width
  {
    if width == 0 then [] else ToBigEndian(n / 0x100, width - 1) + [n % 0x100]
  }

  function FromBigEndian(s: seq<Byte>): nat {
    if s == [] then 0 else 0x100 * FromBigEndian(s[..|s| - 1]) + s[|s| - 1]
  }

  /** Encoding loses exactly what lies above the width. */
  lemma {:induction false} BigEndianWraps(n: nat, width: nat)
    ensures FromBigEndian(ToBigEndian(n, width)) == n % Pow256(width)
  {
    if width == 0 {
    } else {
      var front := ToBigEndian(n / 0x100, width - 1);
      BigEndianWraps(n / 0x100, width - 1);
      assert ToBigEndian(n, width)[..width - 1] == front;
      SplitRemainder(n, Pow256(width - 1));
    }
  }

  lemma SplitRemainder(n: nat, p: nat)
    requires p > 0
    ensures n % (0x100 * p) == 0x100 * ((n / 0x100) % p) + n % 0x100
  {
    var q, r := (n / 0x100) / p, (n / 0x100) % p;
    assert n / 0x100 == q * p + r;
    assert n == 0x100 * (n / 0x100) + n % 0x100;
    calc {
      n;
      0x100 * (q * p + r) + n % 0x100;
      q * (0x100 * p) + (0x100 * r + n % 0x100);
    }
    RemainderIsUnique(n, 0x100 * p, q, 0x100 * r + n % 0x100);
  }

  lemma MultiplyIsMonotone(a: nat, b: nat, m: nat)
    requires a <= b
    ensures a * m <= b * m
  {
  }

  lemma RemainderIsUnique(n: nat, m: nat, q: nat, r: nat)
    requires r < m
    requires n == q * m + r
    ensures n / m == q && n % m == r
  {
    if n / m < q {
      MultiplyIsMonotone(n / m + 1, q, m);
    } else if q < n / m {
      MultiplyIsMonotone(q + 1, n / m, m);
    }
  }

  lemma {:induction false} BigEndianRoundTrip(n: nat, width: nat)
    requires n < Pow256(width)
    ensures FromBigEndian(ToBigEndian(n, width)) == n
  {
    BigEndianWraps(n, width);
    RemainderIsUnique(n, Pow256(width), 0, n);
  }

  /** The other direction: `width` bytes are what their number encodes to. */
  lemma {:induction false} BigEndianDecodes(s: seq<Byte>)
    ensures FromBigEndian(s) < Pow256(|s|)
    ensures ToBigEndian(FromBigEndian(s), |s|) == s
  {
    if s == [] {
    } else {
      BigEndianDecodes(s[..|s| - 1]);
      assert s == s[..|s| - 1] + [s[|s| - 1]];
    }
  }

  /** The same bytes, least significant first. */
  function ToLittleEndian(n: nat, width: nat): (s: seq<Byte>)
    ensures |s| == width
  {
    if width == 0 then [] else [n % 0x100] + ToLittleEndian(n / 0x100, width - 1)
  }

  function FromLittleEndian(s: seq<Byte>): nat {
    if s == [] then 0 else s[0] + 0x100 * FromLittleEndian(s[1..])
  }

  lemma {:induction false} LittleEndianWraps(n: nat, width: nat)
    ensures FromLittleEndian(ToLittleEndian(n, width)) == n % Pow256(width)
  {
    if width == 0 {
    } else {
      var back := ToLittleEndian(n / 0x100, width - 1);
      LittleEndianWraps(n / 0x100, width - 1);
      assert ToLittleEndian(n, width)[1..] == back;
      SplitRemainder(n, Pow256(width - 1));
    }
  }

  lemma {:induction false} LittleEndianRoundTrip(n: nat, width: nat)
    requires n < Pow256(width)
    ensures FromLittleEndian(ToLittleEndian(n, width)) == n
  {
    LittleEndianWraps(n, width);
    RemainderIsUnique(n, Pow256(width), 0, n);
  }

  lemma {:induction false} LittleEndianDecodes(s: seq<Byte>)
    ensures FromLittleEndian(s) < Pow256(|s|)
    ensures ToLittleEndian(FromLittleEndian(s), |s|) == s
  {
    if s == [] {
    } else {
      LittleEndianDecodes(s[1..]);
      assert s == [s[0]] + s[1..];
    }
  }

  /** The widths the formats of this client use, as numbers. */
  lemma Widths()
    ensures Pow256(1) == 0x100
    ensures Pow256(2) == 0x1_0000
    ensures Pow256(4) == 0x1_0000_0000
    ensures Pow256(6) == 0x1_0000_0000_0000
    ensures Pow256(8) == 0x1_0000_0000_0000_0000
  {
    assert Pow256(3) == 0x100_0000;
    assert Pow256(5) == 0x100 * Pow256(4);
    assert Pow256(7) == 0x100 * Pow256(6);
  }

  // ---- Pieces one behind another ----------------------------------------------------------------

  function Joined(pieces: seq<seq<Byte>>): seq<Byte> {
    if pieces == [] then [] else Joined(pieces[..|pieces| - 1]) + pieces[|pieces| - 1]
  }

  lemma JoinedOneMore(pieces: seq<seq<Byte>>, k: nat)
    requires k < |pieces|
    ensures Joined(pieces[..k + 1]) == Joined(pieces[..k]) + pieces[k]
  {
    assert pieces[..k + 1][..k] == pieces[..k];
  }

  lemma JoinedBehind(pieces: seq<seq<Byte>>, last: seq<Byte>)
    ensures Joined(pieces + [last]) == Joined(pieces) + last
  {
    assert (pieces + [last])[..|pieces|] == pieces;
  }

  lemma {:induction false} JoinedOfBoth(a: seq<seq<Byte>>, b: seq<seq<Byte>>)
    ensures Joined(a + b) == Joined(a) + Joined(b)
  {
    if b == [] {
      assert a + b == a;
    } else {
      var front, last := b[..|b| - 1], b[|b| - 1];
      JoinedOfBoth(a, front);
      assert a + b == (a + front) + [last];
      JoinedBehind(a + front, last);
    }
  }
}
