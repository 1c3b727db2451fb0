/**
 * Coordinate extraction: which number of the raster's affine geotransform
 * names the file, for each edge designator W, E, N, S, with the hemisphere
 * letter used by the "geo" sign policy; and the check of the two-letter
 * reference point given on the command line.
 *
 * Coordinates are modelled as integers (see README).
 */
module GeoCoords {
  import opened CStrings

  /** [originX, pixelWidth, rowRotation, originY, colRotation, pixelHeight] */
  type GeoTransform = t: seq<int> | |t| == 6 witness [0, 0, 0, 0, 0, 0]

  /** Georeferenced X of the pixel corner (col, row) under the affine transform. */
  function GeoX(gt: GeoTransform, col: int, row: int): int {
    gt[0] + col * gt[1] + row * gt[2]
  }

  /** Georeferenced Y of the pixel corner (col, row) under the affine transform. */
  function GeoY(gt: GeoTransform, col: int, row: int): int {
    gt[3] + col * gt[4] + row * gt[5]
  }

  /**
   * getCoord: W and N give the origin's X and Y, E the X of the top-right
   * corner and S the Y of the bottom-left corner (rotation terms play no
   * part); any other designator is treated like W.
   */
  function GetCoord(part: char, gt: GeoTransform, xSize: int, ySize: int): (c: int)
    ensures part == 'W' ==> c == GeoX(gt, 0, 0)
    ensures part == 'E' ==> c == GeoX(gt, xSize, 0)
    ensures part == 'N' ==> c == GeoY(gt, 0, 0)
    ensures part == 'S' ==> c == GeoY(gt, 0, ySize)
    ensures part !in "WENS" ==> c == GeoX(gt, 0, 0)
  {
    match part
    case 'W' => gt[0]
    case 'E' => gt[0] + xSize * gt[1]
    case 'S' => gt[3] + ySize * gt[5]
    case 'N' => gt[3]
    case _ => gt[0]
  }

  /**
   * getCoordHemi: E or W for the designators W and E, N or S for every other
   * designator, chosen by the sign of the same coordinate getCoord returns.
   */
  function GetCoordHemi(part: char, gt: GeoTransform, xSize: int, ySize: int): (h: char)
    ensures h in "EW" <==> part == 'W' || part == 'E'
    ensures h in "NS" <==> part != 'W' && part != 'E'
    ensures h in "EN" <==> GetCoord(part, gt, xSize, ySize) >= 0
  {
    var coord := match part
      case 'W' => gt[0]
      case 'E' => gt[0] + xSize * gt[1]
      case 'S' => gt[3] + ySize * gt[5]
      case 'N' => gt[3]
      case _ => gt[0];
    if coord >= 0 then
      (if part == 'W' || part == 'E' then 'E' else 'N')
    else
      (if part == 'W' || part == 'E' then 'W' else 'S')
  }

  /**
   * For a north-up raster (no rotation, positive pixel width, negative pixel
   * height) the designators name the sides of its bounding box.
   */
  lemma NorthUpEdges(gt: GeoTransform, xSize: int, ySize: int)
    requires gt[2] == 0 && gt[4] == 0 && gt[1] > 0 && gt[5] < 0
    requires xSize > 0 && ySize > 0
    ensures GetCoord('W', gt, xSize, ySize) < GetCoord('E', gt, xSize, ySize)
    ensures GetCoord('S', gt, xSize, ySize) < GetCoord('N', gt, xSize, ySize)
  {
    assert xSize * gt[1] > 0;
    assert ySize * gt[5] < 0;
  }

  /** checkRefPoint: two characters equal, ignoring case, to one of the listed pairs. */
  predicate CheckRefPoint(rp: string) {
    |rp| == 2 &&
    (Equal(rp, "WN") || Equal(rp, "EN") || Equal(rp, "NW") || Equal(rp, "NE") ||
     Equal(rp, "WS") || Equal(rp, "ES") || Equal(rp, "SW") || Equal(rp, "ES"))
  }

  /**
   * The accepted reference points are exactly the seven pairs below, in any
   * case; "SE" is not among them because "ES" is listed twice.
   */
  lemma CheckRefPointAccepts(rp: string)
    ensures CheckRefPoint(rp) <==>
      |rp| == 2 && Lower(rp) in {"wn", "en", "nw", "ne", "ws", "es", "sw"}
  {
    LowerPair('W', 'N'); LowerPair('E', 'N'); LowerPair('N', 'W'); LowerPair('N', 'E');
    LowerPair('W', 'S'); LowerPair('E', 'S'); LowerPair('S', 'W');
  }

  lemma LowerPair(a: char, b: char)
    requires a in "WENS" && b in "WENS"
    ensures Lower([a, b]) == [(a as int + 32) as char, (b as int + 32) as char]
  {
  }

  lemma SouthEastRejected()
    ensures !CheckRefPoint("SE") && !CheckRefPoint("se")
    ensures CheckRefPoint("ES")
  {
    CheckRefPointAccepts("SE");
    CheckRefPointAccepts("se");
    CheckRefPointAccepts("ES");
    LowerPair('S', 'E');
    LowerPair('E', 'S');
    LowerOfLowerCase("se");
  }

  /** The reference point main uses: the given one if checkRefPoint accepts it, else "WN". */
  function ResolveRefPoint(arg: string): (rp: string)
    ensures CheckRefPoint(rp)
    ensures CheckRefPoint(arg) ==> rp == arg
    ensures !CheckRefPoint(arg) ==> rp == "WN"
  {
    if CheckRefPoint(arg) then arg else "WN"
  }

  /** The two coordinates main computes for a reference point, in its letter order. */
  function RefPointCoords(rp: string, gt: GeoTransform, xSize: int, ySize: int): (int, int)
    requires |rp| == 2
  {
    (GetCoord(rp[0], gt, xSize, ySize), GetCoord(rp[1], gt, xSize, ySize))
  }

  /** Swapping the letters of a reference point swaps the two coordinates. */
  lemma SwappedRefPointSwapsCoords(a: char, b: char, gt: GeoTransform, xSize: int, ySize: int)
    ensures RefPointCoords([a, b], gt, xSize, ySize).0 == RefPointCoords([b, a], gt, xSize, ySize).1
    ensures RefPointCoords([a, b], gt, xSize, ySize).1 == RefPointCoords([b, a], gt, xSize, ySize).0
  {
  }

  /**
   * checkRefPoint ignores case but getCoord does not: "wn" is accepted, and
   * both of its letters then select the origin's X, and both hemisphere
   * letters are drawn from N/S.
   */
  lemma LowerCaseRefPoint(gt: GeoTransform, xSize: int, ySize: int)
    ensures ResolveRefPoint("wn") == "wn"
    ensures RefPointCoords("wn", gt, xSize, ySize) == (gt[0], gt[0])
    ensures GetCoordHemi('w', gt, xSize, ySize) in "NS"
    ensures GetCoordHemi('n', gt, xSize, ySize) in "NS"
  {
    CheckRefPointAccepts("wn");
    LowerOfLowerCase("wn");
  }
}
