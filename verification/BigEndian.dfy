/** Big-endian numbers of a fixed number of bytes, as the UDS messages carry them. */
module BigEndian {
  import opened Bytes

  function Pow256(n: nat): (p: nat)
    ensures p >= 1
  {
    if n == 0 then 1 else 256 * Pow256(n - 1)
  }

  /** The last `width` base-256 digits of v, most significant first. */
  function Encode(v: nat, width: nat): (s: seq<byte>)
    ensures |s| == width
  {
    if width == 0 then [] else Encode(v / 256, width - 1) + [v % 256]
  }

  function Decode(s: seq<byte>): nat {
    if s == [] then 0 else Decode(s[..|s| - 1]) * 256 + s[|s| - 1]
  }

  lemma DecodeBound(s: seq<byte>)
    ensures Decode(s) < Pow256(|s|)
  {
    if s != [] {
      DecodeBound(s[..|s| - 1]);
    }
  }

  lemma DivMod(v: nat, p: nat)
    requires p > 0
    ensures v / 256 % p * 256 + v % 256 == v % (256 * p)
  {
    var q, r := v / 256 / p, v / 256 % p;
    var rest := r * 256 + v % 256;
    assert v == q * (256 * p) + rest by {
      assert v / 256 == q * p + r;
      assert q * p * 256 == q * (256 * p);
    }
    Unique(v, 256 * p, q, rest);
  }

  lemma AtLeastOnce(d: int, m: int)
    requires m > 0 && d >= 1
    ensures d * m >= m
  {
    assert d * m == (d - 1) * m + m;
  }

  lemma Multiple(d: int, m: int)
    requires m > 0 && -m < d * m < m
    ensures d == 0
  {
    if d >= 1 {
      AtLeastOnce(d, m);
    } else if d <= -1 {
      AtLeastOnce(-d, m);
    }
  }

  lemma Unique(v: nat, m: nat, q: nat, r: nat)
    requires m > 0 && v == q * m + r && r < m
    ensures v % m == r
  {
    var q', r' := v / m, v % m;
    assert v == m * q' + r';
    var d := q - q';
    assert d * m == r' - r;
    Multiple(d, m);
  }

  /** Decoding an encoded number loses exactly the digits that do not fit. */
  lemma {:induction false} DecodeEncode(v: nat, width: nat)
    ensures Decode(Encode(v, width)) == v % Pow256(width)
  {
    if width > 0 {
      var s := Encode(v, width);
      assert s[..|s| - 1] == Encode(v / 256, width - 1);
      DecodeEncode(v / 256, width - 1);
      DivMod(v, Pow256(width - 1));
    }
  }

  /** Encoding a decoded number gives the bytes back. */
  lemma {:induction false} EncodeDecode(s: seq<byte>)
    ensures Encode(Decode(s), |s|) == s
  {
    if s != [] {
      var init := s[..|s| - 1];
      EncodeDecode(init);
      assert (Decode(init) * 256 + s[|s| - 1]) / 256 == Decode(init);
      assert s == init + [s[|s| - 1]];
    }
  }
}
