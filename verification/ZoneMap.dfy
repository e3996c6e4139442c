/** Named zones, their numbers, and the baked map that answers "where am I" with one look-up. */
module ZoneMap {
  import opened Arith
  import opened SpatialIndex

  const LOCATION_RADIUS: real := 8.0
  const WILDERNESS: string := "Wilderness"

  function Ceiling(v: real): int {
    -((-v).Floor)
  }

  function AtTile(x: int, z: int): Pos {
    Pos(x as real, z as real)
  }

  predicate Covers(center: Pos, p: Pos) {
    DistanceSquared(p, center) <= LOCATION_RADIUS * LOCATION_RADIUS
  }

  /** A covered tile lies in the rectangle that the bake scans. */
  lemma CoveredIsScanned(c: Pos, x: int, z: int)
    requires Covers(c, AtTile(x, z))
    ensures (c.x - LOCATION_RADIUS).Floor <= x <= Ceiling(c.x + LOCATION_RADIUS)
    ensures (c.z - LOCATION_RADIUS).Floor <= z <= Ceiling(c.z + LOCATION_RADIUS)
  {
    var dx, dz := x as real - c.x, z as real - c.z;
    assert dx * dx >= 0.0 && dz * dz >= 0.0;
    SquareBound(dx, LOCATION_RADIUS);
    SquareBound(dz, LOCATION_RADIUS);
  }

  /** The table index of a tile. */
  function Slot(x: int, z: int, width: int, height: int): (i: int)
    requires 0 <= x < width && 0 <= z < height
    ensures 0 <= i < width * height
  {
    SlotIsInside(x, z, width, height);
    x * height + z
  }

  lemma RowsBelow(x: int, width: int, height: int)
    ensures (width - 1 - x) * height == width * height - height - x * height
  {}

  lemma SlotIsInside(x: int, z: int, width: int, height: int)
    requires 0 <= x < width && 0 <= z < height
    ensures 0 <= x * height + z < width * height
  {
    ProductIsNat(x, height);
    ProductIsNat(width - 1 - x, height);
    RowsBelow(x, width, height);
  }

  lemma SlotIsInjective(x: int, z: int, u: int, v: int, width: int, height: int)
    requires 0 <= x < width && 0 <= z < height && 0 <= u < width && 0 <= v < height
    ensures Slot(x, z, width, height) == Slot(u, v, width, height) <==> x == u && z == v
  {
    DivModUnique(Slot(x, z, width, height), height, x, z);
    DivModUnique(Slot(u, v, width, height), height, u, v);
  }

  datatype Place = Place(name: string, zone: int)

  class ZoneRegistry {
    var centers: map<string, Pos>
    var nameToZone: map<string, int>
    var zoneToName: seq<string>
    var nextZoneId: int
    var regionMap: array<int>
    var width: int
    var height: int

    /** Zone numbers start at 1, are never reused, and lead back to their names; every location has one. */
    ghost predicate Valid()
      reads this
    {
      && (if zoneToName == [] then nextZoneId == 1 && nameToZone == map[]
          else |zoneToName| == nextZoneId && zoneToName[0] == WILDERNESS)
      && (forall n :: n in nameToZone ==> 1 <= nameToZone[n] < nextZoneId && zoneToName[nameToZone[n]] == n)
      && (forall n :: n in centers ==> n in nameToZone)
    }

    /** What one cell of the baked map may say, given the locations baked so far. */
    ghost predicate CellRight(zone: int, x: int, z: int, done: set<string>)
      requires Valid()
      reads this
    {
      if zone == 0 then forall n :: n in done && n in centers ==> !Covers(centers[n], AtTile(x, z))
      else
        && 1 <= zone < |zoneToName| && zoneToName[zone] in done && zoneToName[zone] in centers
        && Covers(centers[zoneToName[zone]], AtTile(x, z))
    }

    ghost predicate Baked(done: set<string>)
      requires Valid()
      reads this, regionMap
    {
      && width >= 0 && height >= 0 && regionMap.Length == width * height
      && forall x, z :: 0 <= x < width && 0 <= z < height ==>
           CellRight(regionMap[Slot(x, z, width, height)], x, z, done)
    }

    constructor ()
      ensures Valid() && centers == map[] && regionMap.Length == 0 && fresh(regionMap)
    {
      centers, nameToZone, zoneToName, nextZoneId := map[], map[], [], 1;
      regionMap, width, height := new int[0], 0, 0;
    }

    /** The name's number, a new one if it had none; numbers given before stay. */
    method GetOrCreateZoneId(name: string) returns (id: int)
      requires Valid()
      modifies `nameToZone, `zoneToName, `nextZoneId
      ensures Valid() && name in nameToZone && nameToZone[name] == id && zoneToName[id] == name
      ensures forall n :: n in old(nameToZone) ==> n in nameToZone && nameToZone[n] == old(nameToZone[n])
      ensures old(zoneToName) <= zoneToName
      ensures name in old(nameToZone) && old(zoneToName) != [] ==>
                nameToZone == old(nameToZone) && zoneToName == old(zoneToName)
    {
      if zoneToName == [] {
        zoneToName := [WILDERNESS];
      }
      if name in nameToZone {
        return nameToZone[name];
      }
      id := nextZoneId;
      nextZoneId := nextZoneId + 1;
      nameToZone := nameToZone[name := id];
      zoneToName := zoneToName + [name];
    }

    method RegisterLocation(name: string, p: Pos)
      requires Valid()
      modifies `centers, `nameToZone, `zoneToName, `nextZoneId
      ensures Valid() && centers == old(centers)[name := p]
    {
      var _ := GetOrCreateZoneId(name);
      centers := centers[name := p];
    }

    /** Two names never share a number. */
    lemma ZonesAreDistinct(m: string, n: string)
      requires Valid() && m in nameToZone && n in nameToZone && nameToZone[m] == nameToZone[n]
      ensures m == n
    {
      assert zoneToName[nameToZone[m]] == m;
    }

    /** Marks the tiles of one location's rectangle that lie within its radius. */
    method BakeOne(center: Pos, id: int)
      requires width >= 0 && height >= 0 && regionMap.Length == width * height
      modifies regionMap
      ensures forall u, v :: 0 <= u < width && 0 <= v < height ==>
                regionMap[Slot(u, v, width, height)] ==
                  if Covers(center, AtTile(u, v)) then id else old(regionMap[Slot(u, v, width, height)])
    {
      var minX := Max(0, (center.x - LOCATION_RADIUS).Floor);
      var maxX := Min(width - 1, Ceiling(center.x + LOCATION_RADIUS));
      var minZ := Max(0, (center.z - LOCATION_RADIUS).Floor);
      var maxZ := Min(height - 1, Ceiling(center.z + LOCATION_RADIUS));
      var x := minX;
      while x <= maxX
        invariant minX <= x
        invariant forall u, v :: 0 <= u < width && 0 <= v < height ==>
                    regionMap[Slot(u, v, width, height)] ==
                      if Passed(u, v, x, minX, minZ, minZ, maxZ) && Covers(center, AtTile(u, v)) then id
                      else old(regionMap[Slot(u, v, width, height)])
        decreases maxX - x
      {
        var z := minZ;
        while z <= maxZ
          invariant minZ <= z
          invariant forall u, v :: 0 <= u < width && 0 <= v < height ==>
                      regionMap[Slot(u, v, width, height)] ==
                        if Passed(u, v, x, minX, z, minZ, maxZ) && Covers(center, AtTile(u, v)) then id
                        else old(regionMap[Slot(u, v, width, height)])
          decreases maxZ - z
        {
          if Covers(center, AtTile(x, z)) {
            forall u, v | 0 <= u < width && 0 <= v < height
              ensures Slot(u, v, width, height) == Slot(x, z, width, height) <==> u == x && v == z
            {
              SlotIsInjective(u, v, x, z, width, height);
            }
            regionMap[Slot(x, z, width, height)] := id;
          }
          z := z + 1;
        }
        x := x + 1;
      }
      forall u, v | 0 <= u < width && 0 <= v < height && Covers(center, AtTile(u, v))
        ensures Passed(u, v, x, minX, minZ, minZ, maxZ)
      {
        CoveredIsScanned(center, u, v);
      }
    }

    /** Bakes one more location; it was registered, so its number exists already. */
    method BakeNamed(name: string, ghost done: set<string>)
      requires Valid() && Baked(done) && name in centers
      modifies `nameToZone, `zoneToName, `nextZoneId, regionMap
      ensures Valid() && nameToZone == old(nameToZone) && zoneToName == old(zoneToName)
      ensures Baked(done + {name})
    {
      assert zoneToName != [];
      var id := GetOrCreateZoneId(name);
      assert Baked(done);
      ghost var before := regionMap[..];
      BakeOne(centers[name], id);
      forall x, z | 0 <= x < width && 0 <= z < height
        ensures CellRight(regionMap[Slot(x, z, width, height)], x, z, done + {name})
      {
        assert CellRight(before[Slot(x, z, width, height)], x, z, done);
      }
    }

    method BakeRegionMap(width: int, height: int)
      requires Valid() && width >= 0 && height >= 0
      modifies this
      ensures Valid() && this.width == width && this.height == height && fresh(regionMap)
      ensures centers == old(centers) && nameToZone == old(nameToZone)
      ensures Baked(centers.Keys)
    {
      StartBake(width, height);
      var todo := centers.Keys;
      while todo != {}
        invariant Valid() && this.width == width && this.height == height && fresh(regionMap)
        invariant centers == old(centers) && nameToZone == old(nameToZone)
        invariant todo <= centers.Keys && Baked(centers.Keys - todo)
        decreases todo
      {
        todo := BakeNext(todo);
      }
      assert centers.Keys - todo == centers.Keys;
    }

    /** Bakes any one of the locations still to come. */
    method BakeNext(todo: set<string>) returns (rest: set<string>)
      requires Valid() && todo != {} && todo <= centers.Keys && Baked(centers.Keys - todo)
      modifies `nameToZone, `zoneToName, `nextZoneId, regionMap
      ensures Valid() && nameToZone == old(nameToZone)
      ensures rest < todo && Baked(centers.Keys - rest)
    {
      var name :| name in todo;
      rest := todo - {name};
      assert centers.Keys - todo + {name} == centers.Keys - rest;
      BakeNamed(name, centers.Keys - todo);
    }

    /** A fresh map says wilderness everywhere. */
    method StartBake(width: int, height: int)
      requires Valid() && width >= 0 && height >= 0
      modifies `regionMap, `width, `height
      ensures Valid() && this.width == width && this.height == height && fresh(regionMap)
      ensures Baked(centers.Keys - centers.Keys)
    {
      this.width, this.height := width, height;
      ProductIsNat(width, height);
      regionMap := new int[width * height](_ => 0);
    }

    /** The place name at a position: from the baked map, or the nearest location when nothing was baked. */
    method GetLocationNameAt(x: real, z: real) returns (name: string)
      requires Valid() && (regionMap.Length > 0 ==> Baked(centers.Keys))
      ensures regionMap.Length > 0 ==>
                var p := AtTile(Clamp(Round(x), 0, width - 1), Clamp(Round(z), 0, height - 1));
                || (name in centers && Covers(centers[name], p))
                || (name == WILDERNESS && forall n :: n in centers ==> !Covers(centers[n], p))
      ensures regionMap.Length == 0 ==>
                || (name in centers && Covers(centers[name], Pos(x, z))
                    && forall n :: n in centers ==> Nearer(centers[name], centers[n], Pos(x, z)))
                || (name == WILDERNESS && forall n :: n in centers ==> !Covers(centers[n], Pos(x, z)))
    {
      if regionMap.Length > 0 {
        SidesArePositive();
        var ix, iz := Clamp(Round(x), 0, width - 1), Clamp(Round(z), 0, height - 1);
        var zone := regionMap[Slot(ix, iz, width, height)];
        assert CellRight(zone, ix, iz, centers.Keys);
        if zone != 0 && zone < |zoneToName| {
          return zoneToName[zone];
        }
        return WILDERNESS;
      }
      var closest := WILDERNESS;
      var found := false;
      var todo := centers.Keys;
      while todo != {}
        invariant todo <= centers.Keys
        invariant if found then
                    && closest in centers
                    && forall n :: n in centers && n !in todo ==> Nearer(centers[closest], centers[n], Pos(x, z))
                  else
                    && closest == WILDERNESS
                    && forall n :: n in centers && n !in todo ==> DistanceSquared(Pos(x, z), centers[n]) >= FAR
        decreases |todo|
      {
        var n :| n in todo;
        todo := todo - {n};
        var least := if found then DistanceSquared(Pos(x, z), centers[closest]) else FAR;
        if DistanceSquared(Pos(x, z), centers[n]) < least {
          closest, found := n, true;
        }
      }
      if found && Covers(centers[closest], Pos(x, z)) {
        return closest;
      }
      return WILDERNESS;
    }

    /**
     The name and number that an entity carries after it was moved to a position; never number 0, not even outside.
     */
    method RefreshPlace(was: Place, x: real, z: real) returns (now: Place)
      requires Valid() && (regionMap.Length > 0 ==> Baked(centers.Keys))
      modifies `nameToZone, `zoneToName, `nextZoneId
      ensures Valid() && (regionMap.Length > 0 ==> Baked(centers.Keys))
      ensures now.name in nameToZone && nameToZone[now.name] == now.zone >= 1
      ensures now.name == WILDERNESS || now.name in centers
      ensures regionMap.Length > 0 ==>
                var p := AtTile(Clamp(Round(x), 0, width - 1), Clamp(Round(z), 0, height - 1));
                if now.name in centers && Covers(centers[now.name], p) then true
                else now.name == WILDERNESS && forall n :: n in centers ==> !Covers(centers[n], p)
    {
      var name := GetLocationNameAt(x, z);
      var zone := GetOrCreateZoneId(name);
      now := was;
      if was.name != name || was.zone != zone {
        now := Place(name, zone);
      }
    }

    lemma SidesArePositive()
      requires width >= 0 && height >= 0 && width * height > 0
      ensures width > 0 && height > 0
    {}
  }

  /** The square of the initial bound of the nearest-location scan. */
  const FAR: real := 999999.0 * 999999.0

  predicate Nearer(a: Pos, b: Pos, p: Pos) {
    DistanceSquared(p, a) <= DistanceSquared(p, b)
  }

  /** Whether the scan that stands at (x, z) has been at (u, v). */
  predicate Passed(u: int, v: int, x: int, minX: int, z: int, minZ: int, maxZ: int) {
    minX <= u <= x && minZ <= v <= maxZ && (u < x || v < z)
  }

  lemma ProductIsNat(a: int, b: int)
    requires a >= 0 && b >= 0
    ensures a * b >= 0
  {}
}
