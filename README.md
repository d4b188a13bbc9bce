# Visual-novel renderer core: the artifact tree and glyph bitmaps, in Dafny

This project models two pieces of logic from the renderer of a small visual-novel engine. It
proves what they do.

**The artifact scene tree** (`renderer.dfy`, module `Renderer`). A scene is a tree of
artifacts. A `SpriteArtifact` draws a textured quad. Its `Shape` places the quad by anchors
and pixel offsets, and its `depth` sets its depth. An `EmptyArtifact` is a named group that
draws nothing itself. Each node owns an ordered list of children. `add_child` appends to that
list. `draw` threads the frame through the tree in pre-order, children in insertion order.
A sprite issues one draw call before its children. The call's uniforms are copied from the
sprite's shape and depth, plus the fixed aspect ratio 1920 × 1080 and the sprite's texture.
Every call uses the same parameters: depth test "less", depth write on, alpha blending.

In the model, the closed set of artifact kinds is the datatype `Artifact` (`Sprite` | `Empty`).
A boxed child is a value inside its parent, because the parent owns it exclusively. The frame
is the log of the draw calls issued against it (`Frame = seq<DrawCall>`). Each record holds
the call's uniforms and parameters. `Log(a)` is the log that drawing `a` appends. The methods
`Draw` (dispatch on the boxed kind) and `DrawChildren` (the shared `for c in &self.children`
loop) thread the frame the way the source does. The classes `SpriteArtifact` and
`EmptyArtifact` hold the structs' fields. Their `AddChild` pushes onto the `children` field in
place, and their `Draw` is proved against `Log`. An independent description, the pre-order
list of nodes (`Preorder`) and the sprites in it (`SpritesIn`), is connected to `Log` by
lemmas. Those lemmas give call count, call order, copied uniforms and shared parameters.

**Glyph bitmap conversion** (`text.dfy`, module `Text`). `load_char` takes the font library's
rendered glyph: a coverage buffer of one byte per pixel, `width` pixels by `rows` rows, top
row first. It builds an RGBA buffer with a triple loop over rows, columns and 4 channels.
Each coverage byte is repeated in all four channels, and the rows come out bottom-up, as GPU
textures expect. It also returns width, height and the baseline offset `rows - bitmap_top`.
`LoadChar` keeps that loop structure. Its two inner loops are the method `AppendRow`. It is
proved equal to the reference `Flipped`, which is built row by row. The lemmas then fix every
byte of the output by index: channel `c` of output row `j`, column `i` sits at
`4 * (j * width + i) + c` and is input byte `(rows - j - 1) * width + i`.

## Model

| member | source | states |
|---|---|---|
| `Renderer.NewPosition` | src/renderer.rs:132-137 | the new position holds exactly the given anchor and pixel offset |
| `Renderer.SpriteCall` | src/renderer.rs:178-190 | a sprite's call carries its four corner fields, depth and texture unchanged, aspect ratio 1920 × 1080, and depth test IfLess, depth write on, alpha blending |
| `Renderer.Log` | src/renderer.rs:173-216 | `draw` as a function of the tree: the calls a node appends; every one of them uses depth test IfLess, depth write on and alpha blending |
| `Renderer.ChildrenLog` | src/renderer.rs:191-193 | the calls the child loop appends for the first n children; every one of them uses the shared draw parameters |
| `Renderer.DefaultDrawParams` | src/renderer.rs:219-229 | the draw parameters are depth test IfLess, depth write enabled, alpha blending |
| `Renderer.WithChild` | src/renderer.rs:169-171 | adding a child makes it the last child; earlier children keep their order; name, kind, shape, texture and depth are unchanged |
| `Renderer.SpriteArtifact.constructor` | src/renderer.rs:147-153 | a sprite node holds the given shape, texture, depth, name and children |
| `Renderer.SpriteArtifact.Name` | src/renderer.rs:161-163 | `name()` returns the stored name |
| `Renderer.SpriteArtifact.Children` | src/renderer.rs:165-167 | `children()` returns the stored child list unchanged |
| `Renderer.SpriteArtifact.AddChild` | src/renderer.rs:169-171 | pushes the artifact as the last child in place; shape, texture, depth and name are unchanged |
| `Renderer.SpriteArtifact.Draw` | src/renderer.rs:173-195 | appends the sprite's one call first, then its children's calls in insertion order; the result is the pre-order log of the node |
| `Renderer.EmptyArtifact.constructor` | src/renderer.rs:155-158 | a group node holds the given name and children |
| `Renderer.EmptyArtifact.Name` | src/renderer.rs:199-201 | `name()` returns the stored name |
| `Renderer.EmptyArtifact.Children` | src/renderer.rs:203-205 | `children()` returns the stored child list unchanged |
| `Renderer.EmptyArtifact.AddChild` | src/renderer.rs:207-209 | pushes the artifact as the last child in place; the name is unchanged |
| `Renderer.EmptyArtifact.Draw` | src/renderer.rs:211-216 | appends only its children's calls, in insertion order, and no call of its own |
| `Renderer.Draw` | src/renderer.rs:144 | drawing a boxed artifact appends exactly the node's log to the frame and keeps what was already in it |
| `Renderer.DrawChildren` | src/renderer.rs:191-193 | the child loop appends each child's log in turn, in insertion order |
| `Renderer.LogIsPreorder` | src/renderer.rs:173-216 | a tree's log is one call per sprite node, taken in pre-order (parent before children, children in insertion order); group nodes add none |
| `Renderer.ChildrenLogIsPreorder` | src/renderer.rs:211-216 | the calls of a node's first n children are the calls of the sprites in those subtrees, in pre-order |
| `Renderer.CallCountIsSpriteCount` | src/renderer.rs:173-216 | the number of draw calls for a tree equals the number of sprite nodes in it |
| `Renderer.ChildrenCallCount` | src/renderer.rs:191-193 | the calls of a node's first n children number as many as the sprites in those subtrees |
| `Renderer.CallCopiesSprite` | src/renderer.rs:178-188 | the k-th call copies the corners, depth and texture of the k-th sprite in pre-order unchanged, with aspect ratio 1920 × 1080 and the default parameters |
| `Renderer.SpriteCallFirst` | src/renderer.rs:173-195 | a sprite's log is its own call followed by its children's logs concatenated in insertion order, and the sprite is the first sprite of its pre-order listing |
| `Renderer.EmptyLogIsChildrenLogs` | src/renderer.rs:211-216 | a group's log is the concatenation of its children's logs, in insertion order |
| `Renderer.ChildrenLogIsFlatten` | src/renderer.rs:212-214 | the loop over the first n children yields their logs concatenated in order |
| `Renderer.LogWithChild` | src/renderer.rs:169-171 | after a child is added, the node draws everything it drew before and then the new child's calls |
| `Renderer.ChildrenLogWithChild` | src/renderer.rs:207-209 | adding a child leaves the calls of the existing children unchanged |
| `Renderer.DrawTwice` | src/renderer.rs:144 | `draw` borrows the tree immutably: drawing the same scene twice issues identical call sequences, one per sprite |
| `Text.LoadChar` | src/text.rs:12-35 | fails exactly when the buffer holds fewer than width × rows bytes, reporting the first index read past its end, max(buffer length, (rows − 1) × width), since the first row read is the last input row; otherwise returns the flipped RGBA pixels, width = bitmap width, height = rows, offset = rows − bitmap_top |
| `Text.AppendRow` | src/text.rs:23-27 | one pass over a row appends each coverage byte four times, left to right; it fails exactly when the row runs past the end of the buffer, reporting the first index read past the end, max(row start, buffer length) |
| `Text.Flipped` | src/text.rs:17-28 | the RGBA texture built row by row, bottom input row first; every byte of it is a byte of the bitmap's width × rows coverage bytes |
| `Text.GlyphPixels` | src/text.rs:17-28 | the RGBA buffer has exactly 4 × width × rows bytes, and channel c of output row j, column i is input byte (rows − j − 1) × width + i |
| `Text.FlippedAt` | src/text.rs:25 | vertical flip: output pixel (row j, column i) comes from input index (rows − 1 − j) × width + i, and that index is in the buffer |
| `Text.LastRowAt` | src/text.rs:23-26 | within output row j, channel c of column i is byte i of input row rows − j − 1 |
| `Text.ChannelsEqual` | src/text.rs:24-26 | all four bytes of each output pixel are the same coverage byte |
| `Text.ReadIndexInBounds` | src/text.rs:22-25 | every index the loop reads lies below width × rows, so a buffer of that length is never read out of bounds |
| `Text.SourceRowInBounds` | src/text.rs:25 | the input row read for each output row lies inside the bitmap, and the first row read ends exactly at width × rows |
| `Text.EmissionOrder` | src/text.rs:22-28 | pixels are emitted row by row, left to right within a row |
| `Text.EmptyBitmap` | src/text.rs:22-28 | a zero-width or zero-row bitmap, such as a space glyph, yields an empty pixel buffer |
| `Text.FlippedLength` | src/text.rs:22-28 | after j rows the output holds 4 × width × j bytes |
| `Text.RowPixelsAt` | src/text.rs:23-26 | one output row holds 4 bytes per column, and channel c of column i is that column's coverage byte |
| `Text.FlippedPrefix` | src/text.rs:22-28 | the rows already emitted are never changed by later rows |

## Left out

- Window and event-loop set-up, frame timing, GPU buffers, shader loading and compilation, and texture loading (`prepare_window`, `setup_window`, `start_draw`, `prepare`, `create_texture`) are I/O and GPU plumbing. A texture is an opaque id (`TextureId`).
- The `Renderer` passed to `draw` (vertex buffer, index buffer, program) is the same for every call and is not recorded in the log.
- `generate_mipmaps` in the sprite's draw is a GPU side effect with no logical content and is not modelled.
- The `.unwrap()` on `target.draw` aborts on a GPU failure. The model assumes every draw call succeeds.
- The fields of `DrawParameters` that keep their `Default::default()` values are not modelled. Only the depth test, the depth write flag and the blend mode are.
- Anchor-to-pixel resolution happens in the shader, which is not part of this model. The Rust code only forwards the `Shape` fields as uniforms, and the model does the same.
- Floating-point values (anchors, offsets, depth, aspect ratio) are only copied, never computed with. Exact `real`s stand in for `f32`. `Vec2` stands for `[f32; 2]`.
- `create_font` and the font library calls inside `load_char` (`load_char`, `glyph()`, `bitmap()`) are foreign calls. Their result, the bitmap and `bitmap_top`, is the input of `LoadChar`.
- LoadChar: the `as f32` conversions of width, height and offset are modelled as exact integers. The `i32` subtraction `rows - bitmap_top` is not checked for overflow.
- LoadChar: the source uses the bitmap width as the row stride, and the model does the same. The font library's row pitch is not modelled.
- LoadChar: an out-of-bounds read panics in the source. The model returns `Err` with the first index read past the end, and the partly built buffer is dropped, as a panic would drop it.
- src/main.rs is an earlier revision made of window and GPU plumbing only. It is not part of this model.
- Text-run artifacts, a glyph cache, the space-character advance policy and depth sorting are not part of renderer.rs or text.rs. They are not modelled.
