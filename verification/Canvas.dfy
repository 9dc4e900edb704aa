// src/buffer.cpp: the staging canvas the renderers draw on.
module Canvas {
  const SCREEN_WIDTH: int := 800
  const SCREEN_HEIGHT: int := 600
  const TOTAL_PIXELS: int := 480000

  // Row-major position of a pixel.
  function Pixel(x: int, y: int): (i: int)
    ensures OnScreen(x, y) ==> 0 <= i < TOTAL_PIXELS
  {
    800 * y + x
  }

  // Rows lie one after the other from the top, each from left to right.
  lemma RowMajor(x: int, y: int)
    ensures x == 0 && y == 0 ==> Pixel(x, y) == 0
    ensures Pixel(x + 1, y) == Pixel(x, y) + 1
    ensures Pixel(0, y + 1) == Pixel(799, y) + 1
  {
  }

  predicate OnScreen(x: int, y: int) {
    0 <= x < SCREEN_WIDTH && 0 <= y < SCREEN_HEIGHT
  }

  // put_pixel_buffer; its unsigned comparison also turns away negative coordinates.
  method PutPixel(buffer: array<nat>, x: int, y: int, color: nat)
    requires buffer.Length == TOTAL_PIXELS
    modifies buffer
    ensures forall i, j :: OnScreen(i, j) ==>
              buffer[Pixel(i, j)] == if i == x && j == y then color else old(buffer[Pixel(i, j)])
  {
    if 0 <= x < SCREEN_WIDTH && 0 <= y < SCREEN_HEIGHT { buffer[y * SCREEN_WIDTH + x] := color; }
  }
}
