/** The 8-metre hash grid over entities, kept in step with their positions, and its radius query. */
module SpatialIndex {
  import opened Arith

  const CELL_SIZE: real := 8.0
  const WORD: int := 0x1_0000_0000

  type Entity = int

  datatype Pos = Pos(x: real, z: real)

  function Cell(v: real): int {
    (v / CELL_SIZE).Floor
  }

  /** A cell number survives the casts to 32 bits, together with its neighbours. */
  predicate CellFits(c: int) {
    -0x8000_0000 < c < 0x7fff_ffff
  }

  predicate Fits(p: Pos) {
    CellFits(Cell(p.x)) && CellFits(Cell(p.z))
  }

  function Unsigned(c: int): int {
    c % WORD
  }

  /** Two 32-bit cell numbers packed into one 64-bit key. */
  function KeyOfCell(cx: int, cz: int): int {
    Unsigned(cx) * WORD + Unsigned(cz)
  }

  function CellKey(p: Pos): int {
    KeyOfCell(Cell(p.x), Cell(p.z))
  }

  lemma KeyIsInjective(a: int, b: int, c: int, d: int)
    requires -0x8000_0000 <= a < 0x8000_0000 && -0x8000_0000 <= b < 0x8000_0000
    requires -0x8000_0000 <= c < 0x8000_0000 && -0x8000_0000 <= d < 0x8000_0000
    ensures KeyOfCell(a, b) == KeyOfCell(c, d) <==> a == c && b == d
  {}

  lemma CloseCells(a: real, b: real)
    requires -CELL_SIZE <= a - b <= CELL_SIZE
    ensures -1 <= Cell(a) - Cell(b) <= 1
  {}

  function DistanceSquared(a: Pos, b: Pos): real {
    (a.x - b.x) * (a.x - b.x) + (a.z - b.z) * (a.z - b.z)
  }

  /** Anything within eight metres lies in one of the nine cells around. */
  lemma NearbyIsAdjacent(a: Pos, b: Pos, radius: real)
    requires 0.0 <= radius <= CELL_SIZE && DistanceSquared(a, b) <= radius * radius
    ensures -1 <= Cell(a.x) - Cell(b.x) <= 1 && -1 <= Cell(a.z) - Cell(b.z) <= 1
  {
    var dx, dz := a.x - b.x, a.z - b.z;
    assert dx * dx >= 0.0 && dz * dz >= 0.0;
    SquareBound(dx, radius);
    SquareBound(dz, radius);
    CloseCells(a.x, b.x);
    CloseCells(a.z, b.z);
  }

  function Without(s: seq<Entity>, e: Entity): seq<Entity> {
    if s == [] then []
    else Without(s[..|s| - 1], e) + (if s[|s| - 1] == e then [] else [s[|s| - 1]])
  }

  ghost predicate NoDuplicates(s: seq<Entity>) {
    forall i, j :: 0 <= i < j < |s| ==> s[i] != s[j]
  }

  lemma {:induction false} WithoutRemoves(s: seq<Entity>, e: Entity)
    ensures forall x :: x in Without(s, e) <==> x in s && x != e
    ensures NoDuplicates(s) ==> NoDuplicates(Without(s, e))
  {
    if s != [] {
      var f, x := s[..|s| - 1], s[|s| - 1];
      WithoutRemoves(f, e);
      assert s == f + [x];
      if NoDuplicates(s) && x != e {
        forall i | 0 <= i < |Without(f, e)|
          ensures Without(f, e)[i] != x
        {
          assert Without(f, e)[i] in Without(f, e);
          var k :| 0 <= k < |f| && f[k] == Without(f, e)[i];
          assert s[k] != s[|s| - 1];
        }
      }
    }
  }

  type Buckets = map<int, seq<Entity>>

  function BucketOf(cells: Buckets, key: int): seq<Entity> {
    if key in cells then cells[key] else []
  }

  /** The two maps are inverse to each other and no bucket lists an entity twice. */
  ghost predicate Inverse(cells: Buckets, cellOf: map<Entity, int>) {
    && (forall key, e :: e in BucketOf(cells, key) <==> e in cellOf && cellOf[e] == key)
    && (forall key :: NoDuplicates(BucketOf(cells, key)))
  }

  lemma UnfilingKeepsInverse(cells: Buckets, cellOf: map<Entity, int>, e: Entity)
    requires Inverse(cells, cellOf) && e in cellOf
    ensures Inverse(cells[cellOf[e] := Without(BucketOf(cells, cellOf[e]), e)], cellOf - {e})
  {
    var key := cellOf[e];
    var after := cells[key := Without(BucketOf(cells, key), e)];
    WithoutRemoves(BucketOf(cells, key), e);
    forall k
      ensures NoDuplicates(BucketOf(after, k))
      ensures forall x :: x in BucketOf(after, k) <==> x in cellOf - {e} && (cellOf - {e})[x] == k
    {
      assert NoDuplicates(BucketOf(cells, k));
      assert BucketOf(after, k) == if k == key then Without(BucketOf(cells, key), e) else BucketOf(cells, k);
    }
  }

  lemma FilingKeepsInverse(cells: Buckets, cellOf: map<Entity, int>, e: Entity, key: int)
    requires Inverse(cells, cellOf) && e !in cellOf
    ensures Inverse(cells[key := BucketOf(cells, key) + [e]], cellOf[e := key])
  {
    var after := cells[key := BucketOf(cells, key) + [e]];
    forall k
      ensures NoDuplicates(BucketOf(after, k))
      ensures forall x :: x in BucketOf(after, k) <==> x in cellOf[e := key] && cellOf[e := key][x] == k
    {
      assert NoDuplicates(BucketOf(cells, k));
      assert e !in BucketOf(cells, k);
      assert BucketOf(after, k) == if k == key then BucketOf(cells, key) + [e] else BucketOf(cells, k);
    }
  }

  /** The live entities and their positions, as the component registry holds them. */
  class Registry {
    var pos: map<Entity, Pos>
  }

  class LocationRegistry {
    var cellEntities: Buckets
    var entityToCell: map<Entity, int>

    ghost predicate Valid()
      reads this
    {
      Inverse(cellEntities, entityToCell)
    }

    /** Every indexed live entity is filed under the cell of its position. */
    ghost predicate Agrees(reg: Registry)
      reads this, reg
    {
      forall e :: e in entityToCell && e in reg.pos ==> Fits(reg.pos[e]) && entityToCell[e] == CellKey(reg.pos[e])
    }

    constructor ()
      ensures Valid() && entityToCell == map[]
    {
      cellEntities, entityToCell := map[], map[];
    }

    /** Takes the entity out of its bucket. */
    method Unfile(e: Entity)
      requires Valid() && e in entityToCell
      modifies this
      ensures Valid() && entityToCell == old(entityToCell) - {e}
    {
      var key := entityToCell[e];
      UnfilingKeepsInverse(cellEntities, entityToCell, e);
      cellEntities := cellEntities[key := Without(BucketOf(cellEntities, key), e)];
      entityToCell := entityToCell - {e};
    }

    /** Files an entity that is in no bucket. */
    method File(e: Entity, key: int)
      requires Valid() && e !in entityToCell
      modifies this
      ensures Valid() && entityToCell == old(entityToCell)[e := key]
    {
      FilingKeepsInverse(cellEntities, entityToCell, e, key);
      entityToCell := entityToCell[e := key];
      cellEntities := cellEntities[key := BucketOf(cellEntities, key) + [e]];
    }

    method UpdateEntityPosition(e: Entity, p: Pos, reg: Registry)
      requires Valid() && Fits(p)
      modifies this, reg
      ensures Valid()
      ensures entityToCell == old(entityToCell)[e := CellKey(p)]
      ensures reg.pos == if e in old(reg.pos) then old(reg.pos)[e := p] else old(reg.pos)
      ensures old(Agrees(reg)) ==> Agrees(reg)
    {
      var newCell := CellKey(p);
      var changed := true;
      if e in entityToCell {
        if entityToCell[e] == newCell {
          changed := false;
        } else {
          Unfile(e);
        }
      }
      if changed {
        assert entityToCell[e := newCell] == old(entityToCell)[e := newCell];
        File(e, newCell);
      }
      if e in reg.pos {
        reg.pos := reg.pos[e := p];
      }
    }

    method RemoveEntity(e: Entity, ghost reg: Registry)
      requires Valid()
      modifies this
      ensures Valid()
      ensures entityToCell == old(entityToCell) - {e}
      ensures old(Agrees(reg)) ==> Agrees(reg)
    {
      if e in entityToCell {
        Unfile(e);
      }
    }

    ghost predicate FiledAt(e: Entity, cx: int, cz: int, a: int, b: int)
      reads this
    {
      e in entityToCell && entityToCell[e] == KeyOfCell(cx + a, cz + b)
    }

    /** Whether the entity is filed in one of the cells before (i, j) in the scan around (cx, cz). */
    ghost predicate FiledBefore(e: Entity, cx: int, cz: int, i: int, j: int)
      reads this
    {
      exists a, b :: -1 <= a <= 1 && -1 <= b <= 1 && (a < i || (a == i && b < j)) && FiledAt(e, cx, cz, a, b)
    }

    ghost predicate Wanted(e: Entity, p: Pos, radius: real, reg: Registry)
      reads reg
    {
      e in reg.pos && DistanceSquared(reg.pos[e], p) <= radius * radius
    }

    /** The scan of the nine cells: live entities of those cells within the radius, each once. */
    method GetNearbyEntities(p: Pos, radius: real, reg: Registry) returns (result: seq<Entity>)
      requires Valid() && Fits(p)
      ensures NoDuplicates(result)
      ensures forall e :: e in result <==> FiledBefore(e, Cell(p.x), Cell(p.z), 2, -1) && Wanted(e, p, radius, reg)
    {
      result := [];
      var cx, cz := Cell(p.x), Cell(p.z);
      for i := -1 to 2
        invariant NoDuplicates(result)
        invariant forall e :: e in result <==> FiledBefore(e, cx, cz, i, -1) && Wanted(e, p, radius, reg)
      {
        for j := -1 to 2
          invariant NoDuplicates(result)
          invariant forall e :: e in result <==> FiledBefore(e, cx, cz, i, j) && Wanted(e, p, radius, reg)
        {
          var key := KeyOfCell(cx + i, cz + j);
          result := ScanCell(key, p, radius, reg, result, cx, cz, i, j);
        }
        RowDone(cx, cz, i);
      }
    }

    method ScanCell(key: int, p: Pos, radius: real, reg: Registry, before: seq<Entity>,
                    ghost cx: int, ghost cz: int, ghost i: int, ghost j: int)
      returns (result: seq<Entity>)
      requires Valid() && CellFits(cx) && CellFits(cz) && -1 <= i <= 1 && -1 <= j <= 1
      requires key == KeyOfCell(cx + i, cz + j)
      requires NoDuplicates(before)
      requires forall e :: e in before <==> FiledBefore(e, cx, cz, i, j) && Wanted(e, p, radius, reg)
      ensures NoDuplicates(result)
      ensures forall e :: e in result <==> FiledBefore(e, cx, cz, i, j + 1) && Wanted(e, p, radius, reg)
    {
      result := before;
      var bucket := BucketOf(cellEntities, key);
      forall e
        ensures FiledBefore(e, cx, cz, i, j + 1) <==> FiledBefore(e, cx, cz, i, j) || e in bucket
        ensures e in bucket ==> !FiledBefore(e, cx, cz, i, j)
      {
        NextCell(e, cx, cz, i, j);
      }
      for k := 0 to |bucket|
        invariant NoDuplicates(result)
        invariant forall e :: e in result <==> e in before || (e in bucket[..k] && Wanted(e, p, radius, reg))
      {
        var e := bucket[k];
        assert e !in bucket[..k];
        assert e in bucket;
        if e in reg.pos {
          if DistanceSquared(reg.pos[e], p) <= radius * radius {
            result := result + [e];
          }
        }
      }
      assert bucket[..|bucket|] == bucket;
    }

    lemma NextCell(e: Entity, cx: int, cz: int, i: int, j: int)
      requires Valid() && CellFits(cx) && CellFits(cz) && -1 <= i <= 1 && -1 <= j <= 1
      ensures var inBucket := e in BucketOf(cellEntities, KeyOfCell(cx + i, cz + j));
              && (FiledBefore(e, cx, cz, i, j + 1) <==> FiledBefore(e, cx, cz, i, j) || inBucket)
              && (inBucket ==> !FiledBefore(e, cx, cz, i, j))
    {
      var inBucket := e in BucketOf(cellEntities, KeyOfCell(cx + i, cz + j));
      assert inBucket <==> FiledAt(e, cx, cz, i, j);
      if inBucket {
        forall a, b | -1 <= a <= 1 && -1 <= b <= 1 && FiledAt(e, cx, cz, a, b)
          ensures a == i && b == j
        {
          KeyIsInjective(cx + a, cz + b, cx + i, cz + j);
        }
      }
    }

    lemma RowDone(cx: int, cz: int, i: int)
      ensures forall e :: FiledBefore(e, cx, cz, i, 2) <==> FiledBefore(e, cx, cz, i + 1, -1)
    {
      forall e
        ensures FiledBefore(e, cx, cz, i, 2) <==> FiledBefore(e, cx, cz, i + 1, -1)
      {
        if FiledBefore(e, cx, cz, i, 2) {
          var a, b :| -1 <= a <= 1 && -1 <= b <= 1 && (a < i || (a == i && b < 2)) && FiledAt(e, cx, cz, a, b);
        }
        if FiledBefore(e, cx, cz, i + 1, -1) {
          var a, b :| -1 <= a <= 1 && -1 <= b <= 1 && (a < i + 1 || (a == i + 1 && b < -1)) && FiledAt(e, cx, cz, a, b);
        }
      }
    }

    /** With the index in step, the nine cells hold every entity within eight metres. */
    lemma NineCellsSuffice(e: Entity, p: Pos, radius: real, reg: Registry)
      requires Valid() && Agrees(reg) && Fits(p) && 0.0 <= radius <= CELL_SIZE
      requires e in entityToCell && Wanted(e, p, radius, reg)
      ensures FiledBefore(e, Cell(p.x), Cell(p.z), 2, -1)
    {
      var q := reg.pos[e];
      NearbyIsAdjacent(q, p, radius);
      var a, b := Cell(q.x) - Cell(p.x), Cell(q.z) - Cell(p.z);
      assert FiledAt(e, Cell(p.x), Cell(p.z), a, b);
    }

    /** For any radius: an entity in reach is reported exactly when its cell touches the centre's cell. */
    lemma ScannedIffAdjacent(e: Entity, p: Pos, reg: Registry)
      requires Valid() && Agrees(reg) && Fits(p) && e in entityToCell && e in reg.pos
      ensures FiledBefore(e, Cell(p.x), Cell(p.z), 2, -1) <==>
                -1 <= Cell(reg.pos[e].x) - Cell(p.x) <= 1 && -1 <= Cell(reg.pos[e].z) - Cell(p.z) <= 1
    {
      var q := reg.pos[e];
      var a, b := Cell(q.x) - Cell(p.x), Cell(q.z) - Cell(p.z);
      assert FiledAt(e, Cell(p.x), Cell(p.z), a, b);
      forall i, j | -1 <= i <= 1 && -1 <= j <= 1 && FiledAt(e, Cell(p.x), Cell(p.z), i, j)
        ensures i == a && j == b
      {
        KeyIsInjective(Cell(p.x) + i, Cell(p.z) + j, Cell(q.x), Cell(q.z));
      }
    }

    /** The query against the index answers exactly like a scan of all registered live entities. */
    method Query(p: Pos, radius: real, reg: Registry) returns (result: seq<Entity>)
      requires Valid() && Agrees(reg) && Fits(p) && 0.0 <= radius <= CELL_SIZE
      ensures NoDuplicates(result)
      ensures forall e :: e in result <==> e in entityToCell && Wanted(e, p, radius, reg)
    {
      result := GetNearbyEntities(p, radius, reg);
      forall e | e in entityToCell && Wanted(e, p, radius, reg)
        ensures e in result
      {
        NineCellsSuffice(e, p, radius, reg);
      }
    }
  }
}
