/**
  From the index of a block in its file to the path of node blocks that lead to it and
  back (fsck/node.c, fsck/dump.c), for any number of addresses in the inode (A) and in a
  direct node (D) and of node ids in an indirect node (N).
 */
module NodePath {
  /** NODE_DIR1_BLOCK: offsets from here on in an inode name its five node ids. */
  const DIR1: nat := 924

  function Quo(x: nat, d: nat): nat
    requires d > 0
  {
    x / d
  }

  function Rem(x: nat, d: nat): (r: nat)
    requires d > 0
    ensures r < d
  {
    x % d
  }

  function Mul(x: nat, y: nat): (r: nat)
    ensures x > 0 && y > 0 ==> r > 0
  {
    x * y
  }

  datatype Geo = Geo(A: nat, D: nat, N: nat) {
    predicate Ok() { D > 0 && N > 0 }

    /** The number of blocks under a direct, an indirect and a double indirect node. */
    function Cap(level: nat): (n: nat)
      ensures Ok() ==> n > 0
    {
      if level <= 1 then D else if level == 2 then Mul(D, N) else Mul(Mul(D, N), N)
    }

    /**
      The first block under the i-th node id of the inode, for i from 0 to 4; for 5, the number of blocks a file
      can have.
     */
    function Start(i: nat): nat {
      if i == 0 then A
      else if i == 1 then A + Cap(1)
      else if i == 2 then A + 2 * Cap(1)
      else if i == 3 then A + 2 * Cap(1) + Cap(2)
      else if i == 4 then A + 2 * Cap(1) + 2 * Cap(2)
      else A + 2 * Cap(1) + 2 * Cap(2) + Cap(3)
    }
  }

  /** The way to a block: where to turn in each node, and the number of each node within the file. */
  datatype Path = Path(level: nat, offset: seq<nat>, noffset: seq<nat>)

  /** get_node_path as a value */
  function PathOf(g: Geo, block: nat): (p: Path)
    requires g.Ok() && block < g.Start(5)
    ensures p.level <= 3 && |p.offset| == |p.noffset| == p.level + 1 && p.noffset[0] == 0
  {
    if block < g.A then Path(0, [block], [0])
    else if block < g.Start(1) then Path(1, [DIR1, block - g.Start(0)], [0, 1])
    else if block < g.Start(2) then Path(1, [DIR1 + 1, block - g.Start(1)], [0, 2])
    else if block < g.Start(3) then Single(g, block - g.Start(2), 2, 3)
    else if block < g.Start(4) then Single(g, block - g.Start(3), 3, 4 + g.N)
    else Double(g, block - g.Start(4))
  }

  /** Below the indirect node with the given number. */
  function Single(g: Geo, b: nat, i: nat, node: nat): Path
    requires g.Ok()
  {
    Path(2, [DIR1 + i, Quo(b, g.D), Rem(b, g.D)], [0, node, node + 1 + Quo(b, g.D)])
  }

  function Double(g: Geo, b: nat): Path
    requires g.Ok()
  {
    var q, a := Quo(b, g.Cap(2)), Rem(Quo(b, g.D), g.N);
    var first := 6 + 2 * g.N + Mul(q, g.N + 1);
    Path(3, [DIR1 + 4, q, a, Rem(b, g.D)], [0, 5 + 2 * g.N, first, first + 1 + a])
  }

  /** IS_DNODE */
  predicate IsDnode(g: Geo, ofs: nat)
    requires g.Ok()
  {
    && ofs != 3 && ofs != 4 + g.N && ofs != 5 + 2 * g.N
    && (ofs >= 6 + 2 * g.N ==> Rem(ofs - 6 - 2 * g.N, g.N + 1) != 0)
  }

  /** start_bidx_of_node: the index of the first block of a direct node */
  function StartBidx(g: Geo, ofs: nat): int
    requires g.Ok() && IsDnode(g, ofs)
  {
    var indirect := 2 * g.N + 4;
    if ofs == 0 then 0
    else
      RemZero(g.N + 1);
      var bidx := if ofs <= 2 then ofs - 1
                  else if ofs <= indirect then ofs - 2 - Quo(ofs - 4, g.N + 1)
                  else ofs - 5 - Quo(ofs - indirect - 3, g.N + 1);
      bidx * g.D + g.A
  }

  lemma RemZero(d: nat)
    requires d > 0
    ensures Rem(0, d) == 0
  {
  }

  // ---- division

  lemma DivUnique(x: nat, q: nat, d: nat, r: nat)
    requires r < d && x == Mul(q, d) + r
    ensures Quo(x, d) == q && Rem(x, d) == r
  {
    var q', r' := x / d, x % d;
    assert (q - q') * d == r' - r;
    if q != q' { Multiple(q - q', d); }
  }

  lemma Multiple(k: int, d: int)
    requires d > 0 && k != 0
    ensures k * d >= d || k * d <= -d
  {
    if k > 0 { assert (k - 1) * d >= 0; } else { assert (-k - 1) * d >= 0; }
  }

  /** A number as quotient and remainder. */
  lemma DivMod(x: nat, d: nat)
    requires d > 0
    ensures x == Mul(Quo(x, d), d) + Rem(x, d)
  {
  }

  lemma Less(x: nat, y: nat, d: nat)
    requires Mul(x, d) < Mul(y, d)
    ensures x < y
  {
    if y <= x { AtMost(y, x, d); }
  }

  lemma AtMost(x: nat, y: nat, d: nat)
    requires x <= y
    ensures Mul(x, d) <= Mul(y, d)
  {
    assert (y - x) * d >= 0;
  }

  lemma MulAdd(x: nat, y: nat, d: nat)
    ensures Mul(x + y, d) == Mul(x, d) + Mul(y, d)
  {
  }

  lemma MulSwap(x: nat, y: nat)
    ensures Mul(x, y) == Mul(y, x)
  {
  }

  lemma MulAssoc(x: nat, y: nat, z: nat)
    ensures Mul(Mul(x, y), z) == Mul(x, Mul(y, z))
  {
  }

  // ---- the parts of an index

  /** Below an indirect node: which direct node, and where in it. */
  lemma SingleParts(g: Geo, b: nat)
    requires g.Ok() && b < g.Cap(2)
    ensures Quo(b, g.D) < g.N && b == Mul(Quo(b, g.D), g.D) + Rem(b, g.D)
  {
    DivMod(b, g.D);
    MulSwap(g.D, g.N);
    Less(Quo(b, g.D), g.N, g.D);
  }

  /** Below the double indirect node. */
  lemma DoubleParts(g: Geo, b: nat)
    requires g.Ok() && b < g.Cap(3)
    ensures var q, r := Quo(b, g.Cap(2)), Rem(b, g.Cap(2)); var a := Quo(r, g.D);
            && q < g.N && a < g.N && r == Mul(a, g.D) + Rem(r, g.D) && b == Mul(q, g.Cap(2)) + r
            && Rem(Quo(b, g.D), g.N) == a && Rem(b, g.D) == Rem(r, g.D)
  {
    var q, r := Quo(b, g.Cap(2)), Rem(b, g.Cap(2));
    DivMod(b, g.Cap(2));
    MulSwap(g.Cap(2), g.N);
    Less(q, g.N, g.Cap(2));
    SingleParts(g, r);
    var a := Quo(r, g.D);
    MulSwap(g.D, g.N);
    MulAssoc(q, g.N, g.D);
    MulAdd(Mul(q, g.N), a, g.D);
    DivUnique(b, Mul(q, g.N) + a, g.D, Rem(r, g.D));
    DivUnique(Mul(q, g.N) + a, q, g.N, a);
  }

  // ---- the number of a node says where its blocks start

  /** The j-th direct node below an indirect one. */
  lemma SingleStart(g: Geo, first: nat, j: nat)
    requires g.Ok() && j < g.N && (first == 4 || first == 5 + g.N)
    ensures IsDnode(g, first + j)
    ensures StartBidx(g, first + j) == (if first == 4 then g.Start(2) else g.Start(3)) + Mul(j, g.D)
  {
    if first == 4 {
      DivUnique(j, 0, g.N + 1, j);
      Scale(g, 2, j);
    } else {
      DivUnique(g.N + 1 + j, 1, g.N + 1, j);
      Scale(g, 2 + g.N, j);
      Scale(g, 2, g.N);
      MulSwap(g.D, g.N);
    }
  }

  lemma Scale(g: Geo, x: nat, j: nat)
    ensures (x + j) * g.D == x * g.D + Mul(j, g.D)
  {
  }

  /** The a-th direct node below the q-th indirect node of the double indirect one. */
  lemma DoubleStart(g: Geo, q: nat, a: nat)
    requires g.Ok() && a < g.N
    ensures var n := 7 + 2 * g.N + Mul(q, g.N + 1) + a;
            IsDnode(g, n) && !IsDnode(g, 6 + 2 * g.N + Mul(q, g.N + 1)) &&
                StartBidx(g, n) == g.Start(4) + Mul(q, g.Cap(2)) + Mul(a, g.D)
  {
    var n := 7 + 2 * g.N + Mul(q, g.N + 1) + a;
    DivUnique(Mul(q, g.N + 1) + (a + 1), q, g.N + 1, a + 1);
    DivUnique(Mul(q, g.N + 1), q, g.N + 1, 0);
    DivUnique(Mul(q, g.N + 1) + a, q, g.N + 1, a);
    MulAdd(g.N, 1, q);
    MulSwap(q, g.N + 1);
    MulSwap(q, g.N);
    assert n - 5 - q == 2 + 2 * g.N + Mul(q, g.N) + a;
    MulSwap(g.D, g.N);
    MulAssoc(q, g.N, g.D);
    Expand(g, Mul(q, g.N), a);
  }

  lemma Expand(g: Geo, x: nat, a: nat)
    ensures (2 + 2 * g.N + x + a) * g.D == 2 * g.D + 2 * Mul(g.N, g.D) + Mul(x, g.D) + Mul(a, g.D)
  {
  }

  /**
    The last node of a path is direct, the ones between it and the inode are not, and the block is where it starts
    plus the last turn.
   */
  predicate LeadsTo(g: Geo, p: Path, block: nat)
    requires g.Ok() && |p.offset| == |p.noffset| == p.level + 1
  {
    && IsDnode(g, p.noffset[p.level]) && StartBidx(g, p.noffset[p.level]) + p.offset[p.level] == block
    && p.offset[p.level] < (if p.level == 0 then g.A else g.D)
    && (forall i :: 0 < i < p.level ==> !IsDnode(g, p.noffset[i]) && p.offset[i] < g.N)
  }

  lemma SingleLeads(g: Geo, b: nat, i: nat)
    requires g.Ok() && b < g.Cap(2) && (i == 2 || i == 3)
    ensures LeadsTo(g, Single(g, b, i, if i == 2 then 3 else 4 + g.N), g.Start(i) + b)
  {
    SingleParts(g, b);
    SingleStart(g, if i == 2 then 4 else 5 + g.N, Quo(b, g.D));
  }

  lemma DoubleLeads(g: Geo, b: nat)
    requires g.Ok() && b < g.Cap(3)
    ensures LeadsTo(g, Double(g, b), g.Start(4) + b)
  {
    DoubleParts(g, b);
    DoubleStart(g, Quo(b, g.Cap(2)), Rem(Quo(b, g.D), g.N));
  }

  lemma FirstLeads(g: Geo, block: nat)
    requires g.Ok() && block < g.Start(2)
    ensures block < g.Start(5) && LeadsTo(g, PathOf(g, block), block)
  {
    RemZero(g.N + 1);
  }

  /** Following the path of a block and counting from where its node starts gives the block again. */
  lemma RoundTrip(g: Geo, block: nat)
    requires g.Ok() && block < g.Start(5)
    ensures LeadsTo(g, PathOf(g, block), block)
  {
    if block < g.Start(2) {
      FirstLeads(g, block);
    } else if block < g.Start(3) {
      SingleLeads(g, block - g.Start(2), 2);
    } else if block < g.Start(4) {
      SingleLeads(g, block - g.Start(3), 3);
    } else {
      DoubleLeads(g, block - g.Start(4));
    }
  }

  /** Different blocks have different places. */
  lemma PathsDiffer(g: Geo, b: nat, c: nat)
    requires g.Ok() && b < g.Start(5) && c < g.Start(5) && b != c
    ensures var p, q := PathOf(g, b), PathOf(g, c);
            p.noffset[p.level] != q.noffset[q.level] || p.offset[p.level] != q.offset[q.level]
  {
    RoundTrip(g, b);
    RoundTrip(g, c);
  }

  /**
    get_node_path: fills the arrays as far as the path goes; -1 stands for the failed assertion on a block too far
    out.
   */
  method GetNodePath(g: Geo, index: nat, offset: array<nat>, noffset: array<nat>) returns (level: int)
    requires g.Ok() && offset.Length == 4 && noffset.Length == 4 && offset != noffset
    modifies offset, noffset
    ensures level >= -1 && (level == -1 <==> index >= g.Start(5))
    ensures level >= 0 ==> level == PathOf(g, index).level && offset[..level + 1] == PathOf(g, index).offset
    ensures level >= 0 ==> noffset[..level + 1] == PathOf(g, index).noffset
  {
    var block := index;
    var n := 0;
    noffset[0] := 0;
    if block < g.A {
      offset[n] := block;
      return 0;
    }
    block := block - g.A;
    if block < g.D {
      offset[n] := DIR1;
      n := n + 1;
      noffset[n] := 1;
      offset[n] := block;
      return 1;
    }
    block := block - g.D;
    if block < g.D {
      offset[n] := DIR1 + 1;
      n := n + 1;
      noffset[n] := 2;
      offset[n] := block;
      return 1;
    }
    block := block - g.D;
    if block < g.Cap(2) {
      offset[n] := DIR1 + 2;
      n := n + 1;
      noffset[n] := 3;
      offset[n] := Quo(block, g.D);
      n := n + 1;
      noffset[n] := 4 + offset[n - 1];
      offset[n] := Rem(block, g.D);
      return 2;
    }
    block := block - g.Cap(2);
    if block < g.Cap(2) {
      offset[n] := DIR1 + 3;
      n := n + 1;
      noffset[n] := 4 + g.N;
      offset[n] := Quo(block, g.D);
      n := n + 1;
      noffset[n] := 5 + g.N + offset[n - 1];
      offset[n] := Rem(block, g.D);
      return 2;
    }
    block := block - g.Cap(2);
    if block < g.Cap(3) {
      offset[n] := DIR1 + 4;
      n := n + 1;
      noffset[n] := 5 + g.N * 2;
      offset[n] := Quo(block, g.Cap(2));
      n := n + 1;
      noffset[n] := 6 + g.N * 2 + Mul(offset[n - 1], g.N + 1);
      offset[n] := Rem(Quo(block, g.D), g.N);
      n := n + 1;
      noffset[n] := 7 + g.N * 2 + Mul(offset[n - 2], g.N + 1) + offset[n - 1];
      offset[n] := Rem(block, g.D);
      return 3;
    }
    return -1;
  }
}
