/** `app/login_map.py`: the zoom a map is drawn at, and the canvas pasted together from
    256-pixel tiles. Coordinates are real numbers. */
module LoginMap {
  import opened Options

  const WIDTH := 720
  const HEIGHT := 360
  const TILE := 256
  const DEFAULT_ACCURACY_KM := 50

  // ----- zoom_for -----

  function Pow2(n: nat): (r: nat)
    ensures r > 0
  {
    if n == 0 then 1 else 2 * Pow2(n - 1)
  }

  function MetresPerPixel(cosLatitude: real, zoom: nat): real {
    156543.03392 * cosLatitude / Pow2(zoom) as real
  }

  function RadiusMetres(accuracyKm: Option<int>): real {
    (if accuracyKm.None? || accuracyKm.value == 0 then DEFAULT_ACCURACY_KM else accuracyKm.value) as real * 1000.0
  }

  /** The accuracy circle takes at most two thirds of the map's height. */
  predicate Fits(cosLatitude: real, accuracyKm: Option<int>, zoom: nat)
    requires cosLatitude > 0.0
  {
    PositiveScale(cosLatitude, zoom);
    2.0 * RadiusMetres(accuracyKm) / MetresPerPixel(cosLatitude, zoom) <= HEIGHT as real * 2.0 / 3.0
  }

  lemma PositiveScale(cosLatitude: real, zoom: nat)
    requires cosLatitude > 0.0
    ensures MetresPerPixel(cosLatitude, zoom) > 0.0
  {
    var a, b := 156543.03392 * cosLatitude, Pow2(zoom) as real;
    assert a > 0.0 && b > 0.0;
    assert a / b * b == a;
  }

  lemma {:induction false} PowersAdd(m: nat, n: nat)
    ensures Pow2(1) == 2 && Pow2(m + n) == Pow2(m) * Pow2(n)
  {
    assert Pow2(1) == 2 * Pow2(0);
    if n > 0 {
      PowersAdd(m, n - 1);
      assert Pow2(m + n) == 2 * Pow2(m + (n - 1));
    }
  }

  /** Without a division: a world of 256 pixels at zoom 0 has 156543.03392 metres in each at
      the equator, half as many with every zoom; and the circle, 50 km wide to each side
      unless it is known, has 240 of the map's 360 rows. */
  lemma FitsExactlyWhen(cosLatitude: real, accuracyKm: Option<int>, zoom: nat)
    requires cosLatitude > 0.0
    ensures var km := if accuracyKm.None? || accuracyKm.value == 0 then 50 else accuracyKm.value;
            Fits(cosLatitude, accuracyKm, zoom)
            <==> 2000.0 * km as real * Pow2(zoom) as real <= 240.0 * (156543.03392 * cosLatitude)
  {
    PositiveScale(cosLatitude, zoom);
    Divided(2.0 * RadiusMetres(accuracyKm), 156543.03392 * cosLatitude, Pow2(zoom) as real);
  }

  lemma Divided(d: real, c: real, p: real)
    requires c > 0.0 && p > 0.0
    ensures c / p > 0.0 && (d / (c / p) <= 240.0 <==> d * p <= 240.0 * c)
  {
    var m := c / p;
    assert m * p == c;
    assert m > 0.0 by {
      if m <= 0.0 {
        NotPositive(m, p);
      }
    }
    var q := d / m;
    assert q * m == d;
    assert d * p == q * c by {
      assert q * m * p == q * (m * p);
    }
    Compare(q, 240.0, c);
  }

  lemma NotPositive(m: real, p: real)
    requires m <= 0.0 && p > 0.0
    ensures m * p <= 0.0
  {
  }

  lemma Compare(a: real, b: real, c: real)
    requires c > 0.0
    ensures a <= b <==> a * c <= b * c
  {
    if a > b {
      assert (a - b) * c > 0.0;
    } else {
      assert (b - a) * c >= 0.0;
    }
  }

  /** What fits at one zoom fits at every smaller one. */
  lemma FitsBelow(cosLatitude: real, accuracyKm: Option<int>, zoom: nat)
    requires cosLatitude > 0.0 && zoom > 0 && Fits(cosLatitude, accuracyKm, zoom)
    ensures Fits(cosLatitude, accuracyKm, zoom - 1)
  {
    var m, p := MetresPerPixel(cosLatitude, zoom), Pow2(zoom - 1) as real;
    PositiveScale(cosLatitude, zoom);
    PositiveScale(cosLatitude, zoom - 1);
    var c := 156543.03392 * cosLatitude;
    assert Pow2(zoom) as real == 2.0 * p;
    Halved(c, p);
    var d := 2.0 * RadiusMetres(accuracyKm);
    Spread(d, m);
  }

  lemma Halved(c: real, p: real)
    requires p > 0.0
    ensures c / p == 2.0 * (c / (2.0 * p))
  {
    var q := c / (2.0 * p);
    assert q * (2.0 * p) == c;
    assert (2.0 * q) * p == c;
  }

  lemma Spread(d: real, m: real)
    requires m > 0.0 && d / m <= 240.0
    ensures d / (2.0 * m) <= 240.0
  {
    var q := d / m;
    assert q * m == d;
    var h := d / (2.0 * m);
    assert h * (2.0 * m) == d;
    assert (2.0 * h) * m == d;
    assert 2.0 * h == q by {
      assert (2.0 * h - q) * m == 0.0;
    }
  }

  /** The closest zoom, from 15 down to 2, at which the circle fits: it fits at that zoom
      and below it and at none above; if it fits at none, 2. */
  method ZoomFor(cosLatitude: real, accuracyKm: Option<int>) returns (zoom: nat)
    requires cosLatitude > 0.0
    ensures 2 <= zoom <= 15
    ensures Fits(cosLatitude, accuracyKm, 2) ==>
              forall z: nat {:trigger Fits(cosLatitude, accuracyKm, z)} | 2 <= z <= 15 ::
                Fits(cosLatitude, accuracyKm, z) <==> z <= zoom
    ensures !Fits(cosLatitude, accuracyKm, 2) ==> zoom == 2
  {
    zoom := 15;
    while zoom > 1
      invariant 1 <= zoom <= 15
      invariant forall z: nat {:trigger Fits(cosLatitude, accuracyKm, z)} | zoom < z <= 15 ::
                  !Fits(cosLatitude, accuracyKm, z)
    {
      if Fits(cosLatitude, accuracyKm, zoom) {
        FitsDownTo(cosLatitude, accuracyKm, zoom);
        return;
      }
      zoom := zoom - 1;
    }
    zoom := 2;
  }

  lemma {:induction false} FitsDownTo(cosLatitude: real, accuracyKm: Option<int>, zoom: nat)
    requires cosLatitude > 0.0 && Fits(cosLatitude, accuracyKm, zoom)
    ensures forall z: nat {:trigger Fits(cosLatitude, accuracyKm, z)} | z <= zoom :: Fits(cosLatitude, accuracyKm, z)
  {
    if zoom > 0 {
      FitsBelow(cosLatitude, accuracyKm, zoom);
      FitsDownTo(cosLatitude, accuracyKm, zoom - 1);
    }
  }

  // ----- where a tile goes -----

  /** Python's `round`: to the nearest integer, halves to the even one. */
  function RoundHalfEven(x: real): int {
    var f := x.Floor;
    var d := x - f as real;
    if d < 0.5 || (d == 0.5 && f % 2 == 0) then f else f + 1
  }

  /** Rounding halves to even commutes with moving by whole tiles, 256 being even. */
  lemma RoundShifts(x: real, k: int)
    ensures RoundHalfEven((k * TILE) as real + x) == k * TILE + RoundHalfEven(x)
  {
    var y := (k * TILE) as real + x;
    assert y.Floor == k * TILE + x.Floor;
  }

  lemma RoundNear(x: real)
    ensures -0.5 <= RoundHalfEven(x) as real - x <= 0.5
  {
  }

  /** No integer is nearer, and of two as near it is the even one. */
  lemma RoundIsNearest(x: real, n: int)
    requires -0.5 <= n as real - x <= 0.5
    ensures n == RoundHalfEven(x) || (RoundHalfEven(x) % 2 == 0 && (n as real - x == 0.5 || n as real - x == -0.5))
  {
    var f := x.Floor;
    assert n == f || n == f + 1;
  }

  /** One shift for the whole canvas: every tile is pasted at its place in the world image
      moved by this, which is within half a pixel of the exact corner. */
  function Shift(edge: real): int {
    RoundHalfEven(-edge)
  }

  function PasteAt(tile: int, edge: real): int {
    RoundHalfEven((tile * TILE) as real - edge)
  }

  lemma PasteIsShift(tile: int, edge: real)
    ensures PasteAt(tile, edge) == tile * TILE + Shift(edge)
    ensures -0.5 <= Shift(edge) as real + edge <= 0.5
  {
    RoundShifts(-edge, tile);
    RoundNear(-edge);
    assert (tile * TILE) as real - edge == (tile * TILE) as real + (-edge);
  }

  function FirstTile(edge: real): int {
    (edge / TILE as real).Floor
  }

  function LastTile(edge: real, extent: nat): int {
    ((edge + extent as real) / TILE as real).Floor
  }

  predicate InRange(tile: int, edge: real, extent: nat) {
    FirstTile(edge) <= tile <= LastTile(edge, extent)
  }

  /** Which tiles that is: those whose exact place meets the canvas, its far edge too. */
  lemma InRangeExactlyWhen(tile: int, edge: real, extent: nat)
    ensures InRange(tile, edge, extent)
       <==> 256.0 * tile as real <= edge + extent as real && edge < 256.0 * tile as real + 256.0
  {
    FloorAtMost(edge, tile);
    AtMostFloor(edge + extent as real, tile);
  }

  lemma FloorAtMost(edge: real, tile: int)
    ensures FirstTile(edge) <= tile <==> edge < 256.0 * tile as real + 256.0
  {
    var q := edge / 256.0;
    assert q < tile as real + 1.0 <==> edge < 256.0 * tile as real + 256.0;
  }

  lemma AtMostFloor(end: real, tile: int)
    ensures tile <= (end / TILE as real).Floor <==> 256.0 * tile as real <= end
  {
    var q := end / 256.0;
    assert tile as real <= q <==> 256.0 * tile as real <= end;
  }

  predicate CoversAt(tile: int, edge: real, p: int) {
    PasteAt(tile, edge) <= p < PasteAt(tile, edge) + TILE
  }

  /** The tile holding pixel p of the canvas, along one axis. */
  function TileAt(edge: real, p: int): int {
    (p - Shift(edge)) / TILE
  }

  /** Every column, and every row, of the canvas is covered by exactly one tile, and the
      range the loop goes through contains it. */
  lemma ExactlyOneTile(edge: real, extent: nat, p: nat)
    requires p < extent
    ensures InRange(TileAt(edge, p), edge, extent)
    ensures forall tile {:trigger CoversAt(tile, edge, p)} :: CoversAt(tile, edge, p) <==> tile == TileAt(edge, p)
  {
    forall tile
      ensures CoversAt(tile, edge, p) <==> tile == TileAt(edge, p)
    {
      PasteIsShift(tile, edge);
    }
    var x, t := p - Shift(edge), TileAt(edge, p);
    PasteIsShift(t, edge);
    assert t * TILE <= x < t * TILE + TILE;
    NotBefore(edge, x, t);
    NotAfter(edge + extent as real, x, t);
  }

  lemma NotBefore(edge: real, x: int, t: int)
    requires edge - 0.5 <= x as real && x < t * TILE + TILE
    ensures FirstTile(edge) <= t
  {
    var f := FirstTile(edge);
    assert f as real <= edge / TILE as real;
    assert (f * TILE) as real <= edge;
    assert (f * TILE) as real - 0.5 <= x as real;
    assert f * TILE <= x;
  }

  lemma NotAfter(end: real, x: int, t: int)
    requires x as real <= end && t * TILE <= x
    ensures t <= (end / TILE as real).Floor
  {
    assert (t * TILE) as real <= end;
    assert t as real <= end / TILE as real;
  }

  // ----- the canvas -----

  type Pixel = int
  /** Red 170, green 211, blue 223. */
  const SEA: Pixel := (170 * 256 + 211) * 256 + 223

  /** What the tile server has: column, row, and the pixel within the tile. */
  type Tiles = (int, int, int, int) -> Pixel

  /** The world image the tiles are cut from, wrapping around eastwards. */
  function World(tiles: Tiles, count: nat, x: int, y: int): Pixel
    requires count > 0
  {
    tiles((x / TILE) % count, y / TILE, x % TILE, y % TILE)
  }

  /** Pixel (i, j) of the tile in column tx and row ty is that far into the world image. */
  lemma WorldIsTile(tiles: Tiles, count: nat, tx: int, ty: int, i: int, j: int)
    requires count > 0 && 0 <= i < 256 && 0 <= j < 256
    ensures World(tiles, count, 256 * tx + i, 256 * ty + j) == tiles(tx % count, ty, i, j)
  {
    Within(256 * tx + i, tx);
    Within(256 * ty + j, ty);
  }

  /** It wraps after `count` tiles. */
  lemma WorldWraps(tiles: Tiles, count: nat, x: int, y: int)
    requires count > 0
    ensures World(tiles, count, x + count * TILE, y) == World(tiles, count, x, y)
  {
    Within(x + count * TILE, x / TILE + count);
    ModWraps(x / TILE, count);
  }

  lemma ModWraps(q: int, n: nat)
    requires n > 0
    ensures (q + n) % n == q % n
  {
    var d, r := q / n, q % n;
    assert q + n == n * (d + 1) + r;
    ModUnique(q + n, n, d + 1, r);
  }

  lemma ModUnique(a: int, n: nat, d: int, r: int)
    requires n > 0 && a == n * d + r && 0 <= r < n
    ensures a % n == r
  {
    SameRemainder(n, d, r, a / n, a % n);
  }

  lemma SameRemainder(n: nat, d: int, r: int, e: int, s: int)
    requires n > 0 && n * d + r == n * e + s && 0 <= r < n && 0 <= s < n
    ensures r == s
  {
    var k := e - d;
    assert n * k == r - s;
    if k >= 1 {
      AtLeastOne(n, k);
    } else if k <= -1 {
      AtLeastOne(n, -k);
    }
  }

  lemma AtLeastOne(n: nat, k: nat)
    requires k >= 1
    ensures n * k >= n
  {
  }

  /** The picture asked for: the world image, moved by one shift, and sea beyond its rows. */
  function Picture(tiles: Tiles, count: nat, left: real, top: real, px: int, py: int): Pixel
    requires count > 0
  {
    var x, y := px - Shift(left), py - Shift(top);
    if 0 <= y < count * TILE then World(tiles, count, x, y) else (170 * 256 + 211) * 256 + 223
  }

  datatype Position = Position(tx: int, ty: int)

  predicate Over(at: Position, left: real, top: real, px: int, py: int) {
    CoversAt(at.tx, left, px) && CoversAt(at.ty, top, py)
  }

  predicate OverSome(positions: seq<Position>, n: nat, left: real, top: real, px: int, py: int)
    requires n <= |positions|
  {
    exists k :: 0 <= k < n && Over(positions[k], left, top, px, py)
  }

  /** The comprehension over columns and, within them, rows that exist. */
  method Positions(left: real, top: real, count: nat) returns (positions: seq<Position>)
    ensures forall tx, ty :: Position(tx, ty) in positions <==>
              && 256.0 * tx as real <= left + 720.0 && left < 256.0 * tx as real + 256.0
              && 256.0 * ty as real <= top + 360.0 && top < 256.0 * ty as real + 256.0 && 0 <= ty < count
    ensures forall at :: at in positions <==>
              InRange(at.tx, left, WIDTH) && InRange(at.ty, top, HEIGHT) && 0 <= at.ty < count
  {
    positions := [];
    var tx := FirstTile(left);
    while tx <= LastTile(left, WIDTH)
      invariant FirstTile(left) <= tx
      invariant forall at :: at in positions <==>
                  FirstTile(left) <= at.tx < tx && at.tx <= LastTile(left, WIDTH)
                  && InRange(at.ty, top, HEIGHT) && 0 <= at.ty < count
      decreases LastTile(left, WIDTH) - tx
    {
      var ty := FirstTile(top);
      ghost var before := positions;
      while ty <= LastTile(top, HEIGHT)
        invariant FirstTile(top) <= ty
        invariant forall at :: at in positions <==>
                    at in before || (at.tx == tx && FirstTile(top) <= at.ty < ty
                                     && at.ty <= LastTile(top, HEIGHT) && 0 <= at.ty < count)
        decreases LastTile(top, HEIGHT) - ty
      {
        if 0 <= ty < count {
          positions := positions + [Position(tx, ty)];
        }
        ty := ty + 1;
      }
      tx := tx + 1;
    }
    forall tx, ty
      ensures InRange(tx, left, WIDTH) <==>
                256.0 * tx as real <= left + 720.0 && left < 256.0 * tx as real + 256.0
      ensures InRange(ty, top, HEIGHT) <==>
                256.0 * ty as real <= top + 360.0 && top < 256.0 * ty as real + 256.0
    {
      InRangeExactlyWhen(tx, left, WIDTH);
      InRangeExactlyWhen(ty, top, HEIGHT);
    }
  }

  /** `Image.paste`: the tile's pixels at that offset, clipped to the canvas. */
  method Paste(canvas: array2<Pixel>, tiles: Tiles, count: nat, at: Position, left: real, top: real)
    requires canvas.Length0 == WIDTH && canvas.Length1 == HEIGHT && count > 0
    modifies canvas
    ensures forall px, py | 0 <= px < WIDTH && 0 <= py < HEIGHT ::
              canvas[px, py] == if Over(at, left, top, px, py)
                                then World(tiles, count, px - Shift(left), py - Shift(top)) else old(canvas[px, py])
  {
    var ox, oy := PasteAt(at.tx, left), PasteAt(at.ty, top);
    PasteIsShift(at.tx, left);
    PasteIsShift(at.ty, top);
    forall px, py | 0 <= px < WIDTH && 0 <= py < HEIGHT && ox <= px < ox + TILE && oy <= py < oy + TILE {
      canvas[px, py] := tiles(at.tx % count, at.ty, px - ox, py - oy);
    }
    forall px, py | 0 <= px < WIDTH && 0 <= py < HEIGHT && Over(at, left, top, px, py)
      ensures tiles(at.tx % count, at.ty, px - ox, py - oy) == World(tiles, count, px - Shift(left), py - Shift(top))
    {
      Within(px - Shift(left), at.tx);
      Within(py - Shift(top), at.ty);
    }
  }

  lemma Within(x: int, t: int)
    requires t * TILE <= x < t * TILE + TILE
    ensures x / TILE == t && x % TILE == x - t * TILE
  {
  }

  method PasteAll(canvas: array2<Pixel>, tiles: Tiles, count: nat, positions: seq<Position>, left: real, top: real)
    requires canvas.Length0 == WIDTH && canvas.Length1 == HEIGHT && count > 0
    modifies canvas
    ensures forall px, py | 0 <= px < WIDTH && 0 <= py < HEIGHT ::
              canvas[px, py] == if OverSome(positions, |positions|, left, top, px, py)
                                then World(tiles, count, px - Shift(left), py - Shift(top)) else old(canvas[px, py])
  {
    for k := 0 to |positions|
      invariant forall px, py | 0 <= px < WIDTH && 0 <= py < HEIGHT ::
                  canvas[px, py] == if OverSome(positions, k, left, top, px, py)
                                    then World(tiles, count, px - Shift(left), py - Shift(top)) else old(canvas[px, py])
    {
      Paste(canvas, tiles, count, positions[k], left, top);
      OverGrows(positions, k, k + 1, left, top);
    }
  }

  /** The map: whatever the corner, the canvas is the world image moved by whole pixels,
      less than one from the exact place, and sea where the world has no rows. */
  method BaseMap(tiles: Tiles, centreX: real, centreY: real, zoom: nat) returns (canvas: array2<Pixel>)
    ensures fresh(canvas) && canvas.Length0 == WIDTH && canvas.Length1 == HEIGHT
    ensures forall px, py | 0 <= px < WIDTH && 0 <= py < HEIGHT ::
              canvas[px, py] == Picture(tiles, Pow2(zoom), centreX - 360.0, centreY - 180.0, px, py)
  {
    var left, top, count := centreX - WIDTH as real / 2.0, centreY - HEIGHT as real / 2.0, Pow2(zoom);
    var positions := Positions(left, top, count);
    canvas := new Pixel[WIDTH, HEIGHT]((i, j) => SEA);
    PasteAll(canvas, tiles, count, positions, left, top);
    forall px, py | 0 <= px < WIDTH && 0 <= py < HEIGHT
      ensures OverSome(positions, |positions|, left, top, px, py) <==> 0 <= py - Shift(top) < count * TILE
    {
      CoveredRows(positions, left, top, count, px, py);
    }
  }

  lemma OverGrows(positions: seq<Position>, k: nat, next: nat, left: real, top: real)
    requires next == k + 1 <= |positions|
    ensures forall px, py :: OverSome(positions, next, left, top, px, py) <==>
                             OverSome(positions, k, left, top, px, py) || Over(positions[k], left, top, px, py)
  {
  }

  lemma CoveredRows(positions: seq<Position>, left: real, top: real, count: nat, px: nat, py: nat)
    requires px < WIDTH && py < HEIGHT && count > 0
    requires forall at :: at in positions <==>
               InRange(at.tx, left, WIDTH) && InRange(at.ty, top, HEIGHT) && 0 <= at.ty < count
    ensures OverSome(positions, |positions|, left, top, px, py) <==> 0 <= py - Shift(top) < count * TILE
  {
    ExactlyOneTile(left, WIDTH, px);
    ExactlyOneTile(top, HEIGHT, py);
    var at := Position(TileAt(left, px), TileAt(top, py));
    var y := py - Shift(top);
    assert 0 <= y < count * TILE <==> 0 <= at.ty < count;
    if 0 <= at.ty < count {
      assert at in positions && Over(at, left, top, px, py);
    }
  }
}
