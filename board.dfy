/** The chessboard grid of the board segmenter: the four selected image corners are mapped to
    a square board of 8 x 8 squares of side 1000, and the corners of every square are mapped
    back to the image. The perspective solve and its inverse are floating-point linear algebra
    and stay parameters. */
module Board {
  import opened Wrappers
  import opened Corners

  /** The side of one square in board coordinates. */
  const SquareSize: int := 1000

  const BoardSize: int := 8 * SquareSize

  const CornerCountMessage: string := "You must select exactly 4 corners first"

  /** Four points listed top-left, top-right, bottom-right, bottom-left around an axis-aligned
      square of the given side. */
  predicate AxisSquare(r: seq<Point>, side: int) {
    && |r| == 4
    && r[0].x == r[3].x && r[1].x == r[2].x && r[0].y == r[1].y && r[2].y == r[3].y
    && r[1].x - r[0].x == side && r[3].y - r[0].y == side
  }

  /** The board's own corners, top-left, top-right, bottom-right and bottom-left. */
  function DestinationPoints(): (r: seq<Point>)
    ensures AxisSquare(r, BoardSize) && r[0] == Point(0, 0)
  {
    [Point(0, 0), Point(BoardSize, 0), Point(BoardSize, BoardSize), Point(0, BoardSize)]
  }

  /** `get_matrix`: the transform from the selected corners to the board, or the error raised
      when there are no corners or not exactly four; `solve` is the perspective solve. */
  function GetMatrix<M>(corners: Option<seq<Point>>, solve: (seq<Point>, seq<Point>) -> M): (r: Result<M, string>)
    ensures r.Err? <==> corners.None? || |corners.value| != 4
    ensures r.Err? ==> r.error == CornerCountMessage
    ensures r.Ok? ==> r.value == solve(corners.value, DestinationPoints())
  {
    if corners.None? || |corners.value| != 4 then Err(CornerCountMessage)
    else Ok(solve(corners.value, DestinationPoints()))
  }

  /** The board corners of square (row, col): top-left, top-right, bottom-right, bottom-left. */
  function SquareCorners(row: int, col: int): (r: seq<Point>)
    ensures AxisSquare(r, SquareSize) && r[0] == Point(col * SquareSize, row * SquareSize)
  {
    var minX, minY := col * SquareSize, row * SquareSize;
    [Point(minX, minY), Point(minX + SquareSize, minY),
     Point(minX + SquareSize, minY + SquareSize), Point(minX, minY + SquareSize)]
  }

  /** The four corner lists of the segmentation, one entry per square in each. */
  datatype Squares = Squares(topLeft: seq<Point>, topRight: seq<Point>,
                             bottomRight: seq<Point>, bottomLeft: seq<Point>)

  /** Corner `corner` (0 top-left, 1 top-right, 2 bottom-right, 3 bottom-left) of the first n squares in row-major order,
      mapped to the image by `toImage`. */
  function CornerList(n: nat, corner: nat, toImage: Point -> Point): (r: seq<Point>)
    requires corner < 4
    ensures |r| == n
    ensures forall m :: 0 <= m < n ==> CornerList(m, corner, toImage) == r[..m]
    decreases n
  {
    seq(n, k requires 0 <= k < n => toImage(SquareCorners(k / 8, k % 8)[corner]))
  }

  /** The four lists hold the corners of the first n squares. */
  predicate Collected(topLeft: seq<Point>, topRight: seq<Point>, bottomRight: seq<Point>,
                      bottomLeft: seq<Point>, n: nat, toImage: Point -> Point) {
    && topLeft == CornerList(n, 0, toImage)
    && topRight == CornerList(n, 1, toImage)
    && bottomRight == CornerList(n, 2, toImage)
    && bottomLeft == CornerList(n, 3, toImage)
  }

  lemma CornerListStep(n: nat, corner: nat, toImage: Point -> Point)
    requires corner < 4
    ensures CornerList(n + 1, corner, toImage)
            == CornerList(n, corner, toImage) + [toImage(SquareCorners(n / 8, n % 8)[corner])]
  {
  }

  /** Appending the mapped corners of square (row, col), the next one in row-major order,
      extends the collected lists by that square. */
  lemma CollectedStep(topLeft: seq<Point>, topRight: seq<Point>, bottomRight: seq<Point>,
                      bottomLeft: seq<Point>, row: nat, col: nat, toImage: Point -> Point,
                      imageCorners: seq<Point>)
    requires col < 8
    requires Collected(topLeft, topRight, bottomRight, bottomLeft, 8 * row + col, toImage)
    requires |imageCorners| == 4
    requires forall i :: 0 <= i < 4 ==> imageCorners[i] == toImage(SquareCorners(row, col)[i])
    ensures Collected(topLeft + [imageCorners[0]], topRight + [imageCorners[1]],
                      bottomRight + [imageCorners[2]], bottomLeft + [imageCorners[3]],
                      8 * row + col + 1, toImage)
  {
    var n := 8 * row + col;
    assert n / 8 == row && n % 8 == col;
    CornerListStep(n, 0, toImage);
    CornerListStep(n, 1, toImage);
    CornerListStep(n, 2, toImage);
    CornerListStep(n, 3, toImage);
  }

  /** `chessboard_segmentation`: rows outer, columns inner, each square's corners mapped to the
      image and appended to the four lists; `toImage` is the inverse perspective transform
      followed by truncation to integers. */
  method ChessboardSegmentation(toImage: Point -> Point) returns (squares: Squares)
    ensures squares == Squares(CornerList(64, 0, toImage), CornerList(64, 1, toImage),
                               CornerList(64, 2, toImage), CornerList(64, 3, toImage))
  {
    var topLeft, topRight, bottomRight, bottomLeft := [], [], [], [];
    for row := 0 to 8
      invariant Collected(topLeft, topRight, bottomRight, bottomLeft, 8 * row, toImage)
    {
      for col := 0 to 8
        invariant Collected(topLeft, topRight, bottomRight, bottomLeft, 8 * row + col, toImage)
      {
        var minX := col * SquareSize;
        var minY := row * SquareSize;
        var boardCorners := [Point(minX, minY), Point(minX + SquareSize, minY),
                             Point(minX + SquareSize, minY + SquareSize), Point(minX, minY + SquareSize)];
        var imageCorners := seq(4, i requires 0 <= i < 4 => toImage(boardCorners[i]));
        assert boardCorners == SquareCorners(row, col);
        CollectedStep(topLeft, topRight, bottomRight, bottomLeft, row, col, toImage, imageCorners);
        topLeft := topLeft + [imageCorners[0]];
        topRight := topRight + [imageCorners[1]];
        bottomRight := bottomRight + [imageCorners[2]];
        bottomLeft := bottomLeft + [imageCorners[3]];
      }
    }
    squares := Squares(topLeft, topRight, bottomRight, bottomLeft);
  }

  /** Each list has one entry per square, 64 in all, and entry 8 * row + col is the
      corresponding corner of square (row, col). */
  lemma SegmentationLayout(toImage: Point -> Point, row: nat, col: nat)
    requires row < 8 && col < 8
    ensures var s := CornerList(64, 0, toImage);
      |s| == 64 && s[8 * row + col] == toImage(Point(col * SquareSize, row * SquareSize))
    ensures var s := CornerList(64, 1, toImage);
      |s| == 64 && s[8 * row + col] == toImage(Point((col + 1) * SquareSize, row * SquareSize))
    ensures var s := CornerList(64, 2, toImage);
      |s| == 64 && s[8 * row + col] == toImage(Point((col + 1) * SquareSize, (row + 1) * SquareSize))
    ensures var s := CornerList(64, 3, toImage);
      |s| == 64 && s[8 * row + col] == toImage(Point(col * SquareSize, (row + 1) * SquareSize))
  {
    var n := 8 * row + col;
    assert n / 8 == row && n % 8 == col;
    var c := SquareCorners(row, col);
    assert CornerList(64, 0, toImage)[n] == toImage(c[0]);
    assert CornerList(64, 1, toImage)[n] == toImage(c[1]);
    assert CornerList(64, 2, toImage)[n] == toImage(c[2]);
    assert CornerList(64, 3, toImage)[n] == toImage(c[3]);
    assert c[1] == Point((col + 1) * SquareSize, row * SquareSize);
    assert c[2] == Point((col + 1) * SquareSize, (row + 1) * SquareSize);
    assert c[3] == Point(col * SquareSize, (row + 1) * SquareSize);
  }

  /** Neighbouring squares share corners: the top-right corner of a square is the top-left
      one of its right neighbour, its bottom-left the top-left of the square below, and its
      bottom-right the top-left of the square diagonally below. */
  lemma NeighboursShareCorners(row: int, col: int)
    ensures SquareCorners(row, col)[1] == SquareCorners(row, col + 1)[0]
    ensures SquareCorners(row, col)[3] == SquareCorners(row + 1, col)[0]
    ensures SquareCorners(row, col)[2] == SquareCorners(row + 1, col + 1)[0]
    ensures SquareCorners(row, col)[2] == SquareCorners(row, col + 1)[3]
  {
  }

  /** Every corner of every square lies on the board, and the outer corners of the corner
      squares are the board's own corners. */
  lemma CornersOnBoard(row: int, col: int)
    requires 0 <= row < 8 && 0 <= col < 8
    ensures forall i :: 0 <= i < 4 ==>
      0 <= SquareCorners(row, col)[i].x <= BoardSize && 0 <= SquareCorners(row, col)[i].y <= BoardSize
    ensures SquareCorners(0, 0)[0] == DestinationPoints()[0]
    ensures SquareCorners(0, 7)[1] == DestinationPoints()[1]
    ensures SquareCorners(7, 7)[2] == DestinationPoints()[2]
    ensures SquareCorners(7, 0)[3] == DestinationPoints()[3]
  {
  }

  /** Point (x, y) lies in square (row, col): inside its top edge and left edge, outside its
      bottom and right edges. */
  predicate InSquare(x: int, y: int, row: int, col: int) {
    var c := SquareCorners(row, col);
    c[0].x <= x < c[2].x && c[0].y <= y < c[2].y
  }

  /** The squares tile the board: every board point lies in exactly one of them, the one in
      row y / 1000 and column x / 1000. */
  lemma SquaresTileBoard(x: int, y: int, row: int, col: int)
    requires 0 <= x < BoardSize && 0 <= y < BoardSize
    ensures InSquare(x, y, row, col) <==> row == y / SquareSize && col == x / SquareSize
    ensures 0 <= y / SquareSize < 8 && 0 <= x / SquareSize < 8
  {
    if InSquare(x, y, row, col) {
      DivBetween(x, col);
      DivBetween(y, row);
    }
  }

  lemma DivBetween(v: int, q: int)
    requires q * SquareSize <= v < q * SquareSize + SquareSize
    ensures v / SquareSize == q
  {
  }

  /** An axis-aligned rectangle listed top-left, top-right, bottom-right, bottom-left is
      already in the order `order_points` produces. */
  lemma RectangleIsCanonical(x0: int, y0: int, x1: int, y1: int)
    requires x0 < x1 && y0 < y1
    ensures var r := [Point(x0, y0), Point(x1, y0), Point(x1, y1), Point(x0, y1)];
      OrderPoints(r) == Some(r)
  {
    var a, b, c, d := Point(x0, y0), Point(x1, y0), Point(x1, y1), Point(x0, y1);
    var r := [a, b, c, d];
    SortByYOfSplit(a, b, c, d);
    SortTwo(a, b, Vertical);
    SortTwo(c, d, Vertical);
    assert SortBy(r, Vertical) == [a, b, c, d];
    assert SortBy(r, Vertical)[..2] == [a, b] && SortBy(r, Vertical)[2..] == [c, d];
    SortTwo(a, b, Horizontal);
    SortTwo(c, d, Horizontal);
    OrderPointsUnfold(r);
    assert Upper(r) == [a, b] && Lower(r) == [d, c];
  }

  /** The board's corners and every square's corners are in canonical order. */
  lemma LayoutsAreCanonical(row: int, col: int)
    ensures OrderPoints(DestinationPoints()) == Some(DestinationPoints())
    ensures OrderPoints(SquareCorners(row, col)) == Some(SquareCorners(row, col))
  {
    RectangleIsCanonical(0, 0, BoardSize, BoardSize);
    RectangleIsCanonical(col * SquareSize, row * SquareSize, col * SquareSize + SquareSize, row * SquareSize + SquareSize);
  }
}
