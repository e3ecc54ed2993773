/**
 The texture of the font atlas as a flat array of rows, and the copying of one
 glyph bitmap into it.
 */
module Texture {

  // A glyph bitmap, row by row, and whether the font had the glyph at all.
  datatype Glyph = Glyph(loaded: bool, width: nat, height: nat, bitmap: seq<bv32>)

  ghost predicate WholeBitmap(g: Glyph) {
    |g.bitmap| == g.width * g.height
  }

  // What is written for one source pixel: the alpha byte, or all four bytes.
  function Texel(color: bool, v: bv32): bv32 {
    if color then v else (v >> 24) & 0xFF
  }

  // The alpha byte is the highest of the four.
  lemma TexelIsAlpha(a: bv32, b: bv32, g: bv32, r: bv32)
    requires a <= 0xFF && b <= 0xFF && g <= 0xFF && r <= 0xFF
    ensures Texel(false, (a << 24) | (b << 16) | (g << 8) | r) == a
    ensures Texel(true, (a << 24) | (b << 16) | (g << 8) | r) == (a << 24) | (b << 16) | (g << 8) | r
  {
  }

  // Rows and columns of a flat array do not run into each other.
  lemma InTexture(W: int, H: int, r: int, c: int)
    requires 0 <= r < H && 0 <= c < W
    ensures 0 <= r * W + c < W * H
  {
    RowsAdd(r, H - r - 1, W);
  }

  lemma RowsAdd(r: int, below: int, W: int)
    requires 0 <= r && 0 <= below && 0 <= W
    ensures W * (r + below + 1) == r * W + below * W + W && 0 <= r * W && 0 <= below * W
  {
  }

  lemma RowsApart(d: int, W: int)
    requires 0 < W
    ensures d >= 1 ==> d * W >= W
  {
    if d >= 1 {
      assert (d - 1) * W >= 0;
    }
  }

  lemma FlatIsInjective(W: int, r: int, c: int, r': int, c': int)
    requires 0 <= c < W && 0 <= c' < W && r * W + c == r' * W + c'
    ensures r == r' && c == c'
  {
    var d := r' - r;
    assert d * W == r' * W - r * W;
    RowsApart(d, W);
    RowsApart(-d, W);
    assert (-d) * W == -(d * W);
  }

  // The texel in row r and column c of a texture W wide.
  ghost function At(t: seq<bv32>, W: int, H: int, r: int, c: int): bv32
    requires |t| == W * H && 0 <= r < H && 0 <= c < W
  {
    InTexture(W, H, r, c);
    t[r * W + c]
  }

  lemma SetTexel(t: seq<bv32>, t': seq<bv32>, W: int, H: int, r0: int, c0: int, v: bv32)
    requires |t| == W * H && 0 <= r0 < H && 0 <= c0 < W && 0 <= r0 * W + c0 < |t| && t' == t[r0 * W + c0 := v]
    ensures forall r, c :: 0 <= r < H && 0 <= c < W ==>
              At(t', W, H, r, c) == if r == r0 && c == c0 then v else At(t, W, H, r, c)
  {
    forall r, c | 0 <= r < H && 0 <= c < W
      ensures At(t', W, H, r, c) == if r == r0 && c == c0 then v else At(t, W, H, r, c)
    {
      InTexture(W, H, r, c);
      if r * W + c == r0 * W + c0 {
        FlatIsInjective(W, r, c, r0, c0);
      }
    }
  }

  // The texel a glyph at (tx, ty) puts in row r and column c.
  ghost predicate Covered(g: Glyph, tx: int, ty: int, r: int, c: int) {
    ty <= r < ty + g.height && tx <= c < tx + g.width
  }

  ghost function GlyphTexel(g: Glyph, color: bool, y: int, x: int): bv32
    requires WholeBitmap(g) && 0 <= y < g.height && 0 <= x < g.width
  {
    InTexture(g.width, g.height, y, x);
    Texel(color, g.bitmap[y * g.width + x])
  }

  // t' is t with the first `rows` rows of the glyph copied in, and the first
  // `cells` texels of the row after them.
  ghost predicate Copied(t: seq<bv32>, t': seq<bv32>, W: int, H: int, g: Glyph, color: bool,
                         tx: int, ty: int, rows: int, cells: int)
    requires |t| == |t'| == W * H && WholeBitmap(g)
  {
    forall r, c :: 0 <= r < H && 0 <= c < W ==>
      At(t', W, H, r, c)
      == if Covered(g, tx, ty, r, c) && (r - ty < rows || (r - ty == rows && c - tx < cells))
         then GlyphTexel(g, color, r - ty, c - tx) else At(t, W, H, r, c)
  }

  lemma CopyOneMore(t: seq<bv32>, t0: seq<bv32>, t1: seq<bv32>, W: int, H: int, g: Glyph, color: bool,
                    tx: int, ty: int, y: int, x: int)
    requires |t| == |t0| == |t1| == W * H && WholeBitmap(g) && 0 <= y < g.height && 0 <= x < g.width
    requires 0 <= tx && 0 <= ty && tx + g.width <= W && ty + g.height <= H
    requires Copied(t, t0, W, H, g, color, tx, ty, y, x)
    requires forall r, c :: 0 <= r < H && 0 <= c < W ==>
               At(t1, W, H, r, c) == if r == ty + y && c == tx + x then GlyphTexel(g, color, y, x) else At(t0, W, H, r, c)
    ensures Copied(t, t1, W, H, g, color, tx, ty, y, x + 1)
  {
    hide At, GlyphTexel;
  }

  lemma RowDone(t: seq<bv32>, t': seq<bv32>, W: int, H: int, g: Glyph, color: bool, tx: int, ty: int, y: int)
    requires |t| == |t'| == W * H && WholeBitmap(g) && 0 <= y < g.height
    requires Copied(t, t', W, H, g, color, tx, ty, y, g.width)
    ensures Copied(t, t', W, H, g, color, tx, ty, y + 1, 0)
  {
    hide At, GlyphTexel;
  }

  lemma NothingCopied(t: seq<bv32>, W: int, H: int, g: Glyph, color: bool, tx: int, ty: int)
    requires |t| == W * H && WholeBitmap(g)
    ensures Copied(t, t, W, H, g, color, tx, ty, 0, 0)
  {
    hide At, GlyphTexel;
  }

  // Copy one row of a glyph: `dst` and `src` are where the row starts in the
  // texture and in the bitmap.
  method BlitRow(tex: array<bv32>, W: int, H: int, g: Glyph, color: bool, tx: int, ty: int, y: int, dst: int, src: int,
                 ghost start: seq<bv32>)
    requires tex.Length == W * H == |start| && WholeBitmap(g) && 0 <= y < g.height
    requires 0 <= tx && 0 <= ty && (g.width > 0 ==> tx + g.width <= W && ty + g.height <= H)
    requires dst == ty * W + tx + y * W && src == y * g.width
    requires Copied(start, tex[..], W, H, g, color, tx, ty, y, 0)
    modifies tex
    ensures Copied(start, tex[..], W, H, g, color, tx, ty, y + 1, 0)
  {
    hide Copied, At;
    var x := 0;
    while x < g.width
      invariant 0 <= x <= g.width
      invariant Copied(start, tex[..], W, H, g, color, tx, ty, y, x)
    {
      ghost var t0 := tex[..];
      TexelPlace(W, H, g, tx, ty, y, x);
      tex[dst + x] := Texel(color, g.bitmap[src + x]);
      SetTexel(t0, tex[..], W, H, ty + y, tx + x, GlyphTexel(g, color, y, x));
      CopyOneMore(start, t0, tex[..], W, H, g, color, tx, ty, y, x);
      x := x + 1;
    }
    RowDone(start, tex[..], W, H, g, color, tx, ty, y);
  }

  lemma TexelPlace(W: int, H: int, g: Glyph, tx: int, ty: int, y: int, x: int)
    requires WholeBitmap(g) && 0 <= y < g.height && 0 <= x < g.width
    requires 0 <= tx && 0 <= ty && tx + g.width <= W && ty + g.height <= H
    ensures ty * W + tx + y * W + x == (ty + y) * W + (tx + x)
    ensures 0 <= ty * W + tx + y * W + x < W * H
    ensures 0 <= y * g.width + x < |g.bitmap|
  {
    InTexture(W, H, ty + y, tx + x);
    InTexture(g.width, g.height, y, x);
  }

  // Blit a glyph with its top left corner at (tx, ty): exactly its texels change.
  method Blit(tex: array<bv32>, W: int, H: int, g: Glyph, color: bool, tx: int, ty: int)
    requires tex.Length == W * H && WholeBitmap(g)
    requires 0 <= tx && 0 <= ty && (g.width > 0 && g.height > 0 ==> tx + g.width <= W && ty + g.height <= H)
    modifies tex
    ensures Copied(old(tex[..]), tex[..], W, H, g, color, tx, ty, g.height, 0)
  {
    hide Copied, At;
    ghost var start := tex[..];
    var dst, src := ty * W + tx, 0;
    var y := 0;
    NothingCopied(start, W, H, g, color, tx, ty);
    while y < g.height
      invariant 0 <= y <= g.height && dst == ty * W + tx + y * W && src == y * g.width
      invariant Copied(start, tex[..], W, H, g, color, tx, ty, y, 0)
    {
      BlitRow(tex, W, H, g, color, tx, ty, y, dst, src, start);
      NextRow(W, g.width, y);
      dst, src := dst + W, src + g.width;
      y := y + 1;
    }
  }

  lemma NextRow(W: int, w: int, y: int)
    ensures (y + 1) * W == y * W + W && (y + 1) * w == y * w + w
  {
  }
}
