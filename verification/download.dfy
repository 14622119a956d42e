/**
 Downloads from the generator page (`downloadQR`, `downloadSVG`): the
 whole-module canvas size for a requested pixel size, the rectangles drawn for
 the dark modules, and the names of the downloaded files. The QR symbol comes
 from an external library; here its module count and its `isDark` answers are
 parameters.
 */
module Download {
  import opened Wrappers
  import Decimal
  import Hex

  /** Pixels per module and the side of the square canvas. */
  datatype Geometry = Geometry(cellSize: nat, canvasSize: nat)

  /**
   `cellSize = Math.floor(size / moduleCount)`, `actualSize = cellSize * moduleCount`:
   the canvas is the largest whole number of modules that fits in the
   requested size, so it never exceeds it and falls short by less than one
   module.
   */
  function CanvasGeometry(size: nat, moduleCount: nat): (g: Geometry)
    requires moduleCount > 0
    ensures g.canvasSize == g.cellSize * moduleCount
    ensures g.canvasSize <= size
    ensures size - g.canvasSize < moduleCount
  {
    var cellSize := size / moduleCount;
    Geometry(cellSize, cellSize * moduleCount)
  }

  /** No whole number of modules larger than the chosen cell size fits. */
  lemma CanvasIsLargestFit(size: nat, moduleCount: nat, cells: nat)
    requires moduleCount > 0
    requires cells * moduleCount <= size
    ensures cells <= CanvasGeometry(size, moduleCount).cellSize
  {
    var g := CanvasGeometry(size, moduleCount);
    assert cells * moduleCount < (g.cellSize + 1) * moduleCount;
    MultiplyCancel(cells, g.cellSize + 1, moduleCount);
  }

  lemma MultiplyCancel(a: nat, b: nat, c: nat)
    requires a * c < b * c
    ensures a < b
  {
  }

  /** A requested size that is already a multiple of the module count is kept exactly. */
  lemma ExactSizeKept(size: nat, moduleCount: nat)
    requires moduleCount > 0
    requires size % moduleCount == 0
    ensures CanvasGeometry(size, moduleCount).canvasSize == size
  {
  }

  /** The arguments of one `fillRect(x, y, w, h)` call. */
  datatype Rect = Rect(x: nat, y: nat, w: nat, h: nat)

  /** The square of the module at (`row`, `col`). */
  function ModuleRect(row: nat, col: nat, cellSize: nat): Rect {
    Rect(col * cellSize, row * cellSize, cellSize, cellSize)
  }

  predicate InCanvas(r: Rect, canvasSize: nat) {
    r.x + r.w <= canvasSize && r.y + r.h <= canvasSize
  }

  /** Every module square lies inside the canvas. */
  lemma ModuleRectInCanvas(row: nat, col: nat, cellSize: nat, moduleCount: nat)
    requires row < moduleCount && col < moduleCount
    ensures InCanvas(ModuleRect(row, col, cellSize), cellSize * moduleCount)
  {
    NextCellFits(col, cellSize, moduleCount);
    NextCellFits(row, cellSize, moduleCount);
  }

  /** A cell that starts before the last whole cell ends inside the canvas. */
  lemma NextCellFits(i: nat, cellSize: nat, moduleCount: nat)
    requires i < moduleCount
    ensures i * cellSize + cellSize <= cellSize * moduleCount
  {
    assert i * cellSize + cellSize == (i + 1) * cellSize;
    MultiplyMonotone(i + 1, moduleCount, cellSize);
  }

  lemma MultiplyMonotone(a: nat, b: nat, c: nat)
    requires a <= b
    ensures a * c <= b * c
  {
  }

  /** With cells of at least one pixel, different modules get different squares. */
  lemma ModuleRectInjective(row1: nat, col1: nat, row2: nat, col2: nat, cellSize: nat)
    requires cellSize > 0
    requires ModuleRect(row1, col1, cellSize) == ModuleRect(row2, col2, cellSize)
    ensures row1 == row2 && col1 == col2
  {
  }

  /** `r` is the square of some dark module. */
  ghost predicate DarkModuleRect(r: Rect, moduleCount: nat, cellSize: nat, isDark: (nat, nat) -> bool) {
    exists row: nat, col: nat :: row < moduleCount && col < moduleCount && isDark(row, col) && r == ModuleRect(row, col, cellSize)
  }

  /**
   The drawing loop of `downloadQR`: one square per dark module, row by row,
   all inside the canvas; a module's square is drawn exactly when it is dark.
   */
  method DrawModules(size: nat, moduleCount: nat, isDark: (nat, nat) -> bool) returns (g: Geometry, rects: seq<Rect>)
    requires moduleCount > 0
    ensures g == CanvasGeometry(size, moduleCount)
    ensures forall i :: 0 <= i < |rects| ==> InCanvas(rects[i], g.canvasSize)
    ensures forall row: nat, col: nat :: row < moduleCount && col < moduleCount && isDark(row, col) ==>
      ModuleRect(row, col, g.cellSize) in rects
    ensures forall i :: 0 <= i < |rects| ==> DarkModuleRect(rects[i], moduleCount, g.cellSize, isDark)
  {
    g := CanvasGeometry(size, moduleCount);
    rects := [];
    var row := 0;
    while row < moduleCount
      invariant row <= moduleCount
      invariant forall i :: 0 <= i < |rects| ==> InCanvas(rects[i], g.canvasSize)
      invariant forall r: nat, c: nat :: r < row && c < moduleCount && isDark(r, c) ==> ModuleRect(r, c, g.cellSize) in rects
      invariant forall i :: 0 <= i < |rects| ==> DarkModuleRect(rects[i], moduleCount, g.cellSize, isDark)
    {
      var col := 0;
      while col < moduleCount
        invariant col <= moduleCount
        invariant forall i :: 0 <= i < |rects| ==> InCanvas(rects[i], g.canvasSize)
        invariant forall r: nat, c: nat :: r < row && c < moduleCount && isDark(r, c) ==> ModuleRect(r, c, g.cellSize) in rects
        invariant forall c: nat :: c < col && isDark(row, c) ==> ModuleRect(row, c, g.cellSize) in rects
        invariant forall i :: 0 <= i < |rects| ==> DarkModuleRect(rects[i], moduleCount, g.cellSize, isDark)
      {
        if isDark(row, col) {
          ModuleRectInCanvas(row, col, g.cellSize, moduleCount);
          assert DarkModuleRect(ModuleRect(row, col, g.cellSize), moduleCount, g.cellSize, isDark);
          rects := rects + [ModuleRect(row, col, g.cellSize)];
        }
        col := col + 1;
      }
      row := row + 1;
    }
  }

  /** JavaScript truthiness of `currentShortCode`: set and not the empty string. */
  predicate IsTracked(shortCode: Option<string>) {
    shortCode.Some? && shortCode.value != ""
  }

  const PngPrefix: string := "qrcode_"
  const TrackedPrefix: string := "qrcode_tracked_"

  /** `<n>x<n>`: the canvas side, twice, in decimal. */
  function SizeTag(canvasSize: nat): string {
    Decimal.FromNat(canvasSize) + "x" + Decimal.FromNat(canvasSize)
  }

  /**
   The PNG file name: `qrcode_tracked_<code>_<n>x<n>.png` for a tracked code,
   else `qrcode_<n>x<n>.png`. The name starts with the tracked prefix exactly
   when the code is tracked, and then carries the code right after it.
   */
  function PngFileName(shortCode: Option<string>, canvasSize: nat): (name: string)
    ensures |name| > |PngPrefix| + 4 && name[|name| - 4..] == ".png"
    ensures IsTracked(shortCode) ==> |name| > |TrackedPrefix| + |shortCode.value|
    ensures IsTracked(shortCode) <==> |name| >= |TrackedPrefix| && name[..|TrackedPrefix|] == TrackedPrefix
    ensures IsTracked(shortCode) ==> name[|TrackedPrefix|..|TrackedPrefix| + |shortCode.value|] == shortCode.value
    ensures !IsTracked(shortCode) ==> name[..|PngPrefix|] == PngPrefix
  {
    if IsTracked(shortCode) then
      var name := TrackedPrefix + shortCode.value + "_" + SizeTag(canvasSize) + ".png";
      assert name[..|TrackedPrefix|] == TrackedPrefix;
      assert name[|TrackedPrefix|..|TrackedPrefix| + |shortCode.value|] == shortCode.value;
      name
    else
      var name := PngPrefix + SizeTag(canvasSize) + ".png";
      assert name[|PngPrefix|] == Decimal.FromNat(canvasSize)[0];
      assert |name| >= |TrackedPrefix| ==> name[..|TrackedPrefix|][|PngPrefix|] != TrackedPrefix[|PngPrefix|];
      name
  }

  /**
   The SVG file name: `qrcode_tracked_<code>.svg` for a tracked code, else
   `qrcode.svg`; again the tracked prefix appears exactly for a tracked code.
   */
  function SvgFileName(shortCode: Option<string>): (name: string)
    ensures |name| > 4 && name[|name| - 4..] == ".svg"
    ensures IsTracked(shortCode) ==> |name| > |TrackedPrefix| + |shortCode.value|
    ensures IsTracked(shortCode) <==> |name| >= |TrackedPrefix| && name[..|TrackedPrefix|] == TrackedPrefix
    ensures IsTracked(shortCode) ==> name[|TrackedPrefix|..|TrackedPrefix| + |shortCode.value|] == shortCode.value
  {
    if IsTracked(shortCode) then
      var name := TrackedPrefix + shortCode.value + ".svg";
      assert name[..|TrackedPrefix|] == TrackedPrefix;
      assert name[|TrackedPrefix|..|TrackedPrefix| + |shortCode.value|] == shortCode.value;
      name
    else "qrcode.svg"
  }

  /** Reads `<n>x<n>.png` back into `n`. */
  function ParseSizeTagPng(rest: string): Option<nat> {
    if |rest| < 4 || rest[|rest| - 4..] != ".png" then None
    else
      var tag := rest[..|rest| - 4];
      var half := |tag| / 2;
      if |tag| % 2 == 1 && tag[half] == 'x' && tag[..half] == tag[half + 1..] then Decimal.Parse(tag[..half])
      else None
  }

  /** Reads a PNG file name back into the short code it was tracked under (if any) and the canvas size. */
  function ParsePngFileName(name: string): Option<(Option<string>, nat)> {
    if |name| >= |TrackedPrefix| + 9 && name[..|TrackedPrefix|] == TrackedPrefix && name[|TrackedPrefix| + 8] == '_' then
      match ParseSizeTagPng(name[|TrackedPrefix| + 9..])
      case Some(n) => Some((Some(name[|TrackedPrefix|..|TrackedPrefix| + 8]), n))
      case None => None
    else if |name| >= |PngPrefix| && name[..|PngPrefix|] == PngPrefix then
      match ParseSizeTagPng(name[|PngPrefix|..])
      case Some(n) => Some((None, n))
      case None => None
    else None
  }

  lemma SizeTagRoundTrip(n: nat)
    ensures ParseSizeTagPng(SizeTag(n) + ".png") == Some(n)
  {
    var d := Decimal.FromNat(n);
    var rest := SizeTag(n) + ".png";
    assert rest[..|rest| - 4] == SizeTag(n);
    var tag := SizeTag(n);
    assert tag[..|d|] == d && tag[|d| + 1..] == d;
    Decimal.ParseFromNat(n);
  }

  /**
   A PNG file name records the short code the QR code is tracked under (none
   for an untracked one) and the canvas size, so it can be read back.
   */
  lemma PngFileNameRoundTrip(shortCode: Option<string>, canvasSize: nat)
    requires shortCode.Some? ==> Hex.IsShortCode(shortCode.value)
    ensures ParsePngFileName(PngFileName(shortCode, canvasSize)) == Some((shortCode, canvasSize))
  {
    var name := PngFileName(shortCode, canvasSize);
    SizeTagRoundTrip(canvasSize);
    if shortCode.Some? {
      var code := shortCode.value;
      assert name == TrackedPrefix + code + "_" + (SizeTag(canvasSize) + ".png");
      assert name[..|TrackedPrefix|] == TrackedPrefix;
      assert name[|TrackedPrefix|..|TrackedPrefix| + 8] == code;
      assert name[|TrackedPrefix| + 9..] == SizeTag(canvasSize) + ".png";
    } else {
      assert name == PngPrefix + (SizeTag(canvasSize) + ".png");
      assert name[|PngPrefix|] == Decimal.FromNat(canvasSize)[0];
      assert name[..|PngPrefix|] == PngPrefix;
      assert name[|PngPrefix|..] == SizeTag(canvasSize) + ".png";
      if |name| >= |TrackedPrefix| {
        assert name[..|TrackedPrefix|][|PngPrefix|] != TrackedPrefix[|PngPrefix|];
      }
    }
  }

  /** Two downloads get the same PNG file name only for the same code and size. */
  lemma PngFileNameInjective(code1: Option<string>, size1: nat, code2: Option<string>, size2: nat)
    requires code1.Some? ==> Hex.IsShortCode(code1.value)
    requires code2.Some? ==> Hex.IsShortCode(code2.value)
    ensures PngFileName(code1, size1) == PngFileName(code2, size2) <==> code1 == code2 && size1 == size2
  {
    PngFileNameRoundTrip(code1, size1);
    PngFileNameRoundTrip(code2, size2);
  }

  /** Reads an SVG file name back into the short code it was tracked under, if any. */
  function ParseSvgFileName(name: string): Option<Option<string>> {
    if name == "qrcode.svg" then Some(None)
    else if |name| > |TrackedPrefix| + 4 && name[..|TrackedPrefix|] == TrackedPrefix && name[|name| - 4..] == ".svg" then
      Some(Some(name[|TrackedPrefix|..|name| - 4]))
    else None
  }

  /**
   An SVG file name records the short code whenever the page treats the QR
   code as tracked; an empty code counts as untracked, as JavaScript's
   truthiness test makes it.
   */
  lemma SvgFileNameRoundTrip(shortCode: Option<string>)
    ensures ParseSvgFileName(SvgFileName(shortCode)) == Some(if IsTracked(shortCode) then shortCode else None)
  {
    if IsTracked(shortCode) {
      var name := SvgFileName(shortCode);
      assert name[..|TrackedPrefix|] == TrackedPrefix;
      assert name[|TrackedPrefix|..|name| - 4] == shortCode.value;
      assert name[|name| - 4..] == ".svg";
      assert name != "qrcode.svg" by {
        assert |name| > 10;
      }
    }
  }
}
