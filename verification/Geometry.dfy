/** Positions in a file: its blocks, the zones they fall into, and the place that names each zone. */
module Geometry {
  import opened Indirect
  import opened ZoneMap

  /** The zone of a file that block n of the file lies in, `per` blocks to a zone. */
  ghost function ZoneIx(per: nat, n: nat): nat
    requires per > 0
    decreases n
  {
    if n < per then 0 else 1 + ZoneIx(per, n - per)
  }

  /** The place of block n in its zone. */
  ghost function Boff(per: nat, n: nat): (r: nat)
    requires per > 0
    ensures r < per && r <= n
    decreases n
  {
    if n < per then n else Boff(per, n - per)
  }

  lemma {:induction false} PosDiv(per: nat, n: nat)
    requires per > 0
    ensures ZoneIx(per, n) == n / per && Boff(per, n) == n % per
    decreases n
  {
    if n >= per {
      PosDiv(per, n - per);
      DivStep(per, n);
    } else {
      DivSmall(per, n);
    }
  }

  lemma DivSmall(per: nat, n: nat)
    requires n < per
    ensures n / per == 0 && n % per == n
  {
  }

  lemma DivStep(per: nat, n: nat)
    requires 0 < per <= n
    ensures n / per == 1 + (n - per) / per && n % per == (n - per) % per
  {
    var q, r := (n - per) / per, (n - per) % per;
    assert n == (q + 1) * per + r;
    DivUnique(per, n, q + 1, r);
  }

  lemma DivUnique(per: nat, n: nat, q: int, r: int)
    requires per > 0 && n == q * per + r && 0 <= r < per
    ensures n / per == q && n % per == r
  {
    var d := n / per - q;
    assert n == (n / per) * per + n % per;
    assert d * per == r - n % per;
    assert d >= 1 ==> d * per >= 1 * per;
    assert d <= -1 ==> -d * per >= 1 * per;
  }

  /** Zone and place in the zone determine the block. */
  lemma {:induction false} PosUnique(per: nat, n: nat, m: nat)
    requires per > 0 && ZoneIx(per, n) == ZoneIx(per, m)
    ensures n - Boff(per, n) == m - Boff(per, m)
    decreases n
  {
    if n >= per && m >= per {
      PosUnique(per, n - per, m - per);
    }
  }

  /** The blocks between the start of a block's zone and that block are in the same zone. */
  lemma {:induction false} SameZone(per: nat, n: nat, m: nat)
    requires per > 0 && n - Boff(per, n) <= m < n - Boff(per, n) + per
    ensures ZoneIx(per, m) == ZoneIx(per, n)
    decreases n
  {
    if n >= per {
      SameZone(per, n - per, m - per);
    }
  }

  // ---------- data zones ----------

  /** Zones a file can have. */
  function MaxZones(kind: Kind): nat {
    if kind.v1 then NR_DZONES + 512 + 512 * 512 else NR_DZONES + 256 + 256 * 256
  }

  /** The zone of the file that a data place is for. */
  ghost function KeyOf(kind: Kind, p: Ptr): nat {
    match p
    case Direct(k) => k
    case Single(j) => NR_DZONES + j
    case Double(j, m) => NR_DZONES + Entries(kind) + (if kind.v1 then 512 * j else 256 * j) + m
    case _ => 0
  }

  ghost predicate Names(kind: Kind, p: Ptr, k: nat) {
    IsData(p) && PtrOk(kind, p) && KeyOf(kind, p) == k
  }

  lemma NamesOne(kind: Kind, p: Ptr, q: Ptr, k: nat)
    requires Names(kind, p, k) && Names(kind, q, k)
    ensures p == q
  {
  }

  lemma SomeName(kind: Kind, k: nat)
    requires k < MaxZones(kind)
    ensures exists p :: Names(kind, p, k)
  {
    var e := k - NR_DZONES - Entries(kind);
    var n := Entries(kind);
    if k < NR_DZONES {
      assert Names(kind, Direct(k), k);
    } else if e < 0 {
      assert Names(kind, Single(k - NR_DZONES), k);
    } else if kind.v1 {
      assert Names(kind, Double(e / 512, e % 512), k);
    } else {
      assert Names(kind, Double(e / 256, e % 256), k);
    }
  }

  /** The place that names zone k of a file. */
  ghost function PtrFor(kind: Kind, k: nat): (p: Ptr)
    requires k < MaxZones(kind)
    ensures Names(kind, p, k)
  {
    SomeName(kind, k);
    var p :| Names(kind, p, k);
    p
  }

  /** How read_map and write_map find the place of a zone in the doubly indirect range. */
  lemma DoubleIndex(kind: Kind, e: nat)
    requires NR_DZONES + Entries(kind) + e < MaxZones(kind)
    ensures var n := Entries(kind); e / n < n && Names(kind, Double(e / n, e % n), NR_DZONES + n + e)
  {
    if kind.v1 {
      assert e / 512 < 512;
    } else {
      assert e / 256 < 256;
    }
  }
}
