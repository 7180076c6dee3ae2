/**
  Icon tiles of the catalog: exported services are placed while they are collected,
  the others afterwards, each behind the last tile in use.
 */
module Atlas {
  import opened Options

  const ICON_SIZE := 48
  const ATLAS_COLUMNS := 28

  /** x, y, width, height */
  datatype Rect = Rect(x: int, y: int, w: int, h: int)

  function Tile(index: nat): Rect
  {
    Rect(index % ATLAS_COLUMNS * ICON_SIZE, index / ATLAS_COLUMNS * ICON_SIZE, ICON_SIZE, ICON_SIZE)
  }

  /** How the program reads an index back from a rectangle. */
  function IndexOf(r: Rect): int
  {
    r.y / ICON_SIZE * ATLAS_COLUMNS + r.x / ICON_SIZE
  }

  /** Decoding inverts encoding, so different indexes have different tiles. */
  lemma DecodeTile(index: nat)
    ensures IndexOf(Tile(index)) == index
  {
    var c, r := index % ATLAS_COLUMNS, index / ATLAS_COLUMNS;
    assert c * ICON_SIZE / ICON_SIZE == c && r * ICON_SIZE / ICON_SIZE == r;
  }

  function CeilDiv(n: nat, d: int): nat
    requires d > 0
  {
    (n + d - 1) / d
  }

  function Height(services: nat): nat
  {
    CeilDiv(services, ATLAS_COLUMNS) * ICON_SIZE
  }

  predicate Overlap(a: Rect, b: Rect)
  {
    a.x < b.x + b.w && b.x < a.x + a.w && a.y < b.y + b.h && b.y < a.y + a.h
  }

  /** Tiles lie on a grid: two of them share a pixel only if they are the same. */
  lemma TilesDisjoint(i: nat, j: nat)
    requires Overlap(Tile(i), Tile(j))
    ensures i == j
  {
    var a, b := i % ATLAS_COLUMNS, j % ATLAS_COLUMNS;
    var r, s := i / ATLAS_COLUMNS, j / ATLAS_COLUMNS;
    assert a == b && r == s;
  }

  /** A tile of `n` services lies inside an atlas of height `h` exactly if its row does. */
  predicate Inside(r: Rect, h: int)
  {
    0 <= r.x && r.x + r.w <= ATLAS_COLUMNS * ICON_SIZE && 0 <= r.y && r.y + r.h <= h
  }

  /** The final crop keeps every tile, and is no higher than the last one needs. */
  lemma CropContainsTiles(n: nat, i: nat)
    requires i < n
    ensures Inside(Tile(i), Height(n))
    ensures i == n - 1 ==> Tile(i).y + ICON_SIZE == Height(n)
  {
    var row := i / ATLAS_COLUMNS;
    assert row + 1 <= CeilDiv(n, ATLAS_COLUMNS);
  }

  /** Whether all tiles fit the height allocated for `sources` entries and `portals` portals. */
  predicate Fits(n: nat, sources: nat, portals: nat)
  {
    Height(n) <= Height(sources + portals)
  }

  /** Exactly when every tile lies inside the allocated height. */
  lemma FitsIff(n: nat, sources: nat, portals: nat)
    ensures Fits(n, sources, portals) <==> forall i: nat :: i < n ==> Inside(Tile(i), Height(sources + portals))
  {
    var h := Height(sources + portals);
    if Fits(n, sources, portals) {
      forall i: nat | i < n ensures Inside(Tile(i), h) { CropContainsTiles(n, i); }
    } else {
      assert n > 0;
      LastTileOutside(n, h);
    }
  }

  lemma LastTileOutside(n: nat, h: nat)
    requires n > 0 && Height(n) > h
    ensures !Inside(Tile(n - 1), h)
  {
    CropContainsTiles(n, n - 1);
  }

  /** No more services than source entries and portals together is enough. */
  lemma CountedServicesFit(n: nat, sources: nat, portals: nat)
    requires n <= sources + portals
    ensures Fits(n, sources, portals)
  {
  }

  /** The manual service is not counted: 28 exported services and no portals overflow by one row. */
  lemma ManualServiceOverflows()
    ensures !Fits(28 + 1, 28, 0)
  {
  }

  /** The icons of the exported services, in the order they are appended. */
  method PlaceExported(count: nat) returns (icons: seq<Option<Rect>>)
    ensures |icons| == count
    ensures forall i :: 0 <= i < count ==> icons[i] == Some(Tile(i))
  {
    icons := [];
    while |icons| < count
      invariant |icons| <= count
      invariant forall i :: 0 <= i < |icons| ==> icons[i] == Some(Tile(i))
    {
      var atlasIndex := |icons|;
      var column := atlasIndex % ATLAS_COLUMNS;
      var row := atlasIndex / ATLAS_COLUMNS;
      icons := icons + [Some(Rect(column * ICON_SIZE, row * ICON_SIZE, ICON_SIZE, ICON_SIZE))];
    }
  }

  /** The largest index in use, or -1. */
  method LastIndex(icons: seq<Option<Rect>>) returns (last: int)
    ensures forall i :: 0 <= i < |icons| && icons[i].Some? ==> IndexOf(icons[i].value) <= last
    ensures last == -1 || exists i :: 0 <= i < |icons| && icons[i].Some? && IndexOf(icons[i].value) == last
    ensures last >= -1
  {
    last := -1;
    var i := 0;
    while i < |icons|
      invariant 0 <= i <= |icons| && last >= -1
      invariant forall k :: 0 <= k < i && icons[k].Some? ==> IndexOf(icons[k].value) <= last
      invariant last == -1 || exists k :: 0 <= k < i && icons[k].Some? && IndexOf(icons[k].value) == last
    {
      if icons[i].Some? && IndexOf(icons[i].value) > last {
        last := IndexOf(icons[i].value);
      }
      i := i + 1;
    }
  }

  /** Exported services first, then the manual one and those from portals: service `i` gets tile `i`. */
  method PlaceRest(exported: nat, others: nat) returns (icons: seq<Option<Rect>>)
    ensures |icons| == exported + others
    ensures forall i :: 0 <= i < |icons| ==> icons[i] == Some(Tile(i))
  {
    icons := PlaceExported(exported);
    icons := icons + seq(others, _ => None);
    var s := 0;
    while s < |icons|
      invariant 0 <= s <= |icons| == exported + others
      invariant forall i :: 0 <= i < s ==> icons[i] == Some(Tile(i))
      invariant forall i :: s <= i < |icons| ==> icons[i] == if i < exported then Some(Tile(i)) else None
    {
      if icons[s].Some? {
        s := s + 1;
        continue;
      }
      var last := LastIndex(icons);
      LastIs(icons, s, last);
      var atlasIndex := last + 1;
      var column := atlasIndex % ATLAS_COLUMNS;
      var row := atlasIndex / ATLAS_COLUMNS;
      icons := icons[s := Some(Rect(column * ICON_SIZE, row * ICON_SIZE, ICON_SIZE, ICON_SIZE))];
      s := s + 1;
    }
  }

  lemma LastIs(icons: seq<Option<Rect>>, s: nat, last: int)
    requires s <= |icons| && last >= -1
    requires forall i :: 0 <= i < s ==> icons[i] == Some(Tile(i))
    requires forall i :: s <= i < |icons| ==> icons[i] == None
    requires forall i :: 0 <= i < |icons| && icons[i].Some? ==> IndexOf(icons[i].value) <= last
    requires last == -1 || exists i :: 0 <= i < |icons| && icons[i].Some? && IndexOf(icons[i].value) == last
    ensures last == s - 1
  {
    forall i | 0 <= i < s ensures IndexOf(icons[i].value) == i { DecodeTile(i); }
    if s > 0 { assert IndexOf(icons[s - 1].value) == s - 1; }
  }
}
