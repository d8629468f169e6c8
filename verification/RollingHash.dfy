/** The rolling hash of three bytes with which deflate finds earlier strings. */
module RollingHash {

  type octet = bv8

  /** The parameters of the hash: its number of bits, and by how much it is shifted for each
      byte, so that after three bytes the first one is out of it. */
  datatype HashParams = HashParams(bits: bv8, shift: bv8) {
    predicate Valid() {
      8 <= bits <= 16 && 3 <= shift <= 6 && bits <= 3 * shift
    }

    function Mask(): bv32
      requires Valid()
    {
      (1 << bits) - 1
    }

    function Size(): nat
      requires Valid()
    {
      if bits == 8 then 0x100 else if bits == 9 then 0x200 else if bits == 10 then 0x400 else if bits == 11 then 0x800
      else if bits == 12 then 0x1000 else if bits == 13 then 0x2000 else if bits == 14 then 0x4000
      else if bits == 15 then 0x8000 else 0x1_0000
    }

    function Update(h: bv32, c: octet): bv32
      requires Valid()
    {
      ((h << shift) ^ (c as bv32)) & Mask()
    }

    /** The hash of three bytes. */
    function Hash(a: octet, b: octet, c: octet): bv32
      requires Valid()
    {
      Update(Update(a as bv32, b), c)
    }
  }

  lemma IndexFits(p: HashParams, h: bv32, c: octet)
    requires p.Valid()
    ensures p.Update(h, c) as nat < p.Size()
  {
    var u := p.Update(h, c);
    assert u <= p.Mask();
    BelowSize(p, u);
  }

  lemma BelowSize(p: HashParams, u: bv32)
    requires p.Valid() && u <= p.Mask()
    ensures u as nat < p.Size()
  {
    if p.bits == 8 {
      assert u <= 0xff;
    } else if p.bits == 9 {
      assert u <= 0x1ff;
    } else if p.bits == 10 {
      assert u <= 0x3ff;
    } else if p.bits == 11 {
      assert u <= 0x7ff;
    } else if p.bits == 12 {
      assert u <= 0xfff;
    } else if p.bits == 13 {
      assert u <= 0x1fff;
    } else if p.bits == 14 {
      assert u <= 0x3fff;
    } else if p.bits == 15 {
      assert u <= 0x7fff;
    } else {
      assert u <= 0xffff;
    }
  }

  /** Different hashes have different places in the table. */
  lemma IndexTells(g: bv32, h: bv32)
    requires g as nat == h as nat
    ensures g == h
  {
    BackFromNat(g);
    BackFromNat(h);
  }

  lemma BackFromNat(h: bv32)
    ensures (h as nat) as bv32 == h
  {
  }

  /** Strings of three bytes that begin with the same two and have the same hash are equal. */
  lemma ThirdSame(p: HashParams, a: octet, b: octet, c: octet, d: octet)
    requires p.Valid() && p.Hash(a, b, c) == p.Hash(a, b, d)
    ensures c == d
  {
  }

  /** Whatever went before, the hash after three bytes is that of these bytes. */
  lemma Forget(p: HashParams, a: octet, b: octet, c: octet, d: octet)
    requires p.Valid()
    ensures p.Update(p.Hash(a, b, c), d) == p.Hash(b, c, d)
  {
    if p.shift == 3 {
    } else if p.shift == 4 {
    } else if p.shift == 5 {
    } else {
    }
  }
}
