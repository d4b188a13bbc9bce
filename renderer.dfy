/** The artifact scene tree of the renderer and the draw calls one frame issues for it.
    A `Frame` is seen only through the log of draw calls made against it; the shared
    quad geometry and shader program (`Renderer`) are the same for every call and are
    not recorded. Floating-point values (anchors, offsets, depth) are only copied by the
    source, so exact reals stand in for them. */
module Renderer {

  /** An `[f32; 2]`. */
  datatype Vec2 = Vec2(x: real, y: real)

  /** Where a quad sits: two corners, each an anchor (a fraction of the viewport) plus a pixel offset. */
  datatype Shape = Shape(blAnchor: Vec2, trAnchor: Vec2, blPos: Vec2, trPos: Vec2)

  /** A single anchored point. */
  datatype Position = Position(anchor: Vec2, position: Vec2)

  /** `Position::new`: pairs an anchor with a pixel offset. */
  function NewPosition(anchor: Vec2, position: Vec2): (p: Position)
    ensures p.anchor == anchor && p.position == position
  {
    Position(anchor, position)
  }

  /** A GPU texture, seen only as an opaque handle. */
  type TextureId = nat

  /** The depth comparisons a draw call can ask for. */
  datatype DepthTest =
    | Ignore | Overwrite | IfEqual | IfNotEqual | IfMore | IfMoreOrEqual | IfLess | IfLessOrEqual

  /** How fragment colours are combined with what is already in the target. */
  datatype Blend = AlwaysReplace | AlphaBlending

  /** The part of the draw parameters the renderer sets; every other field keeps its default. */
  datatype DrawParams = DrawParams(depthTest: DepthTest, depthWrite: bool, blend: Blend)

  /** `default_draw_params`: nearer fragments win, depth is written, colours are alpha-blended. */
  function DefaultDrawParams(): (p: DrawParams)
    ensures p.depthTest == IfLess && p.depthWrite && p.blend == AlphaBlending
  {
    DrawParams(IfLess, true, AlphaBlending)
  }

  /** The reference resolution every sprite passes to the shader. */
  const AspectRatio: Vec2 := Vec2(1920.0, 1080.0)

  /** The uniform block a sprite hands to the shader. */
  datatype Uniforms = Uniforms(
    aspectRatio: Vec2,
    blAnchor: Vec2,
    trAnchor: Vec2,
    blPos: Vec2,
    trPos: Vec2,
    depth: real,
    image: TextureId)

  /** One record in the frame's log: the uniforms and parameters of one draw of the shared quad. */
  datatype DrawCall = DrawCall(uniforms: Uniforms, params: DrawParams)

  /** The frame being drawn, as the sequence of draw calls issued against it, oldest first. */
  type Frame = seq<DrawCall>

  /** A boxed `dyn Artifact`. The set of implementations is closed: a sprite or an empty group.
      A node owns its children exclusively, so a child is a value of its parent. */
  datatype Artifact =
    | Sprite(name: string, shape: Shape, image: TextureId, depth: real, children: seq<Artifact>)
    | Empty(name: string, children: seq<Artifact>)

  /** The draw call a sprite issues for itself: its corners, depth and texture as uniforms,
      with the fixed aspect ratio and the default draw parameters. */
  function SpriteCall(s: Artifact): (c: DrawCall)
    requires s.Sprite?
    ensures c.uniforms.aspectRatio == Vec2(1920.0, 1080.0)
    ensures c.uniforms.blAnchor == s.shape.blAnchor && c.uniforms.trAnchor == s.shape.trAnchor
    ensures c.uniforms.blPos == s.shape.blPos && c.uniforms.trPos == s.shape.trPos
    ensures c.uniforms.depth == s.depth && c.uniforms.image == s.image
    ensures c.params == DrawParams(IfLess, true, AlphaBlending)
  {
    DrawCall(
      Uniforms(AspectRatio, s.shape.blAnchor, s.shape.trAnchor, s.shape.blPos, s.shape.trPos, s.depth, s.image),
      DefaultDrawParams())
  }

  /** `add_child` on a node value: the same node with one more child at the end. */
  function WithChild(n: Artifact, c: Artifact): (r: Artifact)
    ensures |r.children| == |n.children| + 1
    ensures r.children[..|n.children|] == n.children && r.children[|n.children|] == c
    ensures r.name == n.name && r.Sprite? == n.Sprite?
    ensures n.Sprite? ==> r.shape == n.shape && r.image == n.image && r.depth == n.depth
  {
    n.(children := n.children + [c])
  }

  // ---------------------------------------------------------------------------
  // What drawing a tree does to the frame

  /** The calls `draw` appends for node `a`: a sprite's own call, then its children's. */
  function Log(a: Artifact): (r: Frame)
    ensures forall c <- r :: c.params == DrawParams(IfLess, true, AlphaBlending)
    decreases a, 1
  {
    match a
    case Sprite(_, _, _, _, _) => [SpriteCall(a)] + ChildrenLog(a, |a.children|)
    case Empty(_, _) => ChildrenLog(a, |a.children|)
  }

  /** The calls the first `n` children of `p` append, in insertion order. */
  function ChildrenLog(p: Artifact, n: nat): (r: Frame)
    requires n <= |p.children|
    ensures forall c <- r :: c.params == DrawParams(IfLess, true, AlphaBlending)
    decreases p, 0, n
  {
    if n == 0 then [] else ChildrenLog(p, n - 1) + Log(p.children[n - 1])
  }

  // ---------------------------------------------------------------------------
  // An independent description: the nodes of a tree in pre-order

  /** Every node of the tree rooted at `a`, each parent before its children, children in insertion order. */
  function Preorder(a: Artifact): seq<Artifact>
    decreases a, 1
  {
    [a] + ChildrenPreorder(a, |a.children|)
  }

  /** The pre-order listings of the first `n` children of `p`, one after the other. */
  function ChildrenPreorder(p: Artifact, n: nat): seq<Artifact>
    requires n <= |p.children|
    decreases p, 0, n
  {
    if n == 0 then [] else ChildrenPreorder(p, n - 1) + Preorder(p.children[n - 1])
  }

  /** The sprites among `nodes`, in the order they appear. */
  function SpritesIn(nodes: seq<Artifact>): (r: seq<Artifact>)
    ensures forall s <- r :: s.Sprite?
  {
    if nodes == [] then []
    else (if nodes[0].Sprite? then [nodes[0]] else []) + SpritesIn(nodes[1..])
  }

  /** One call per sprite, in order. */
  function CallsFor(sprites: seq<Artifact>): Frame
    requires forall s <- sprites :: s.Sprite?
  {
    seq(|sprites|, k requires 0 <= k < |sprites| => SpriteCall(sprites[k]))
  }

  /** The number of sprite nodes in the tree rooted at `a`. */
  function SpriteCount(a: Artifact): nat
    decreases a, 1
  {
    (if a.Sprite? then 1 else 0) + ChildrenSpriteCount(a, |a.children|)
  }

  /** The number of sprite nodes under the first `n` children of `p`. */
  function ChildrenSpriteCount(p: Artifact, n: nat): nat
    requires n <= |p.children|
    decreases p, 0, n
  {
    if n == 0 then 0 else ChildrenSpriteCount(p, n - 1) + SpriteCount(p.children[n - 1])
  }

  // ---------------------------------------------------------------------------
  // Lemmas

  lemma {:induction false} SpritesInConcat(x: seq<Artifact>, y: seq<Artifact>)
    ensures SpritesIn(x + y) == SpritesIn(x) + SpritesIn(y)
  {
    if x == [] {
      assert x + y == y;
    } else {
      assert (x + y)[0] == x[0] && (x + y)[1..] == x[1..] + y;
      SpritesInConcat(x[1..], y);
      calc {
        SpritesIn(x + y);
        (if x[0].Sprite? then [x[0]] else []) + SpritesIn(x[1..] + y);
        (if x[0].Sprite? then [x[0]] else []) + SpritesIn(x[1..]) + SpritesIn(y);
      }
    }
  }

  lemma CallsForConcat(x: seq<Artifact>, y: seq<Artifact>)
    requires forall s <- x :: s.Sprite?
    requires forall s <- y :: s.Sprite?
    ensures CallsFor(x + y) == CallsFor(x) + CallsFor(y)
  {
  }

  /** Drawing issues exactly one call per sprite, in pre-order: the log of a tree is the
      sequence of its sprites' calls taken in pre-order, and group nodes contribute nothing. */
  lemma {:induction false} LogIsPreorder(a: Artifact)
    ensures Log(a) == CallsFor(SpritesIn(Preorder(a)))
    decreases a, 1
  {
    var rest := ChildrenPreorder(a, |a.children|);
    ChildrenLogIsPreorder(a, |a.children|);
    SpritesInConcat([a], rest);
    assert SpritesIn([a]) == if a.Sprite? then [a] else [];
    CallsForConcat(SpritesIn([a]), SpritesIn(rest));
  }

  lemma {:induction false} ChildrenLogIsPreorder(p: Artifact, n: nat)
    requires n <= |p.children|
    ensures ChildrenLog(p, n) == CallsFor(SpritesIn(ChildrenPreorder(p, n)))
    decreases p, 0, n
  {
    if n > 0 {
      var before, last := ChildrenPreorder(p, n - 1), Preorder(p.children[n - 1]);
      ChildrenLogIsPreorder(p, n - 1);
      LogIsPreorder(p.children[n - 1]);
      SpritesInConcat(before, last);
      CallsForConcat(SpritesIn(before), SpritesIn(last));
    }
  }

  /** The number of draw calls for a tree equals the number of sprite nodes in it. */
  lemma {:induction false} CallCountIsSpriteCount(a: Artifact)
    ensures |Log(a)| == SpriteCount(a)
    decreases a, 1
  {
    ChildrenCallCount(a, |a.children|);
  }

  lemma {:induction false} ChildrenCallCount(p: Artifact, n: nat)
    requires n <= |p.children|
    ensures |ChildrenLog(p, n)| == ChildrenSpriteCount(p, n)
    decreases p, 0, n
  {
    if n > 0 {
      ChildrenCallCount(p, n - 1);
      CallCountIsSpriteCount(p.children[n - 1]);
    }
  }

  /** The k-th call of a frame copies the shape corners and depth of the k-th sprite in
      pre-order unchanged, binds its texture, and uses the fixed aspect ratio and the
      default draw parameters. */
  lemma CallCopiesSprite(a: Artifact, k: nat)
    requires k < |Log(a)|
    ensures k < |SpritesIn(Preorder(a))|
    ensures var s, c := SpritesIn(Preorder(a))[k], Log(a)[k];
      && c.uniforms.aspectRatio == Vec2(1920.0, 1080.0)
      && c.uniforms.blAnchor == s.shape.blAnchor
      && c.uniforms.trAnchor == s.shape.trAnchor
      && c.uniforms.blPos == s.shape.blPos
      && c.uniforms.trPos == s.shape.trPos
      && c.uniforms.depth == s.depth
      && c.uniforms.image == s.image
      && c.params == DrawParams(IfLess, true, AlphaBlending)
  {
    LogIsPreorder(a);
  }

  /** The logs of the first `n` children of `p`, one entry per child. */
  function ChildLogs(p: Artifact, n: nat): (logs: seq<Frame>)
    requires n <= |p.children|
    ensures |logs| == n
  {
    seq(n, i requires 0 <= i < n => Log(p.children[i]))
  }

  /** A list of logs, one after the other. */
  function Flatten(logs: seq<Frame>): Frame
  {
    if logs == [] then [] else Flatten(logs[..|logs| - 1]) + logs[|logs| - 1]
  }

  /** A group issues no call of its own: its log is its children's logs, concatenated in insertion order. */
  lemma EmptyLogIsChildrenLogs(e: Artifact)
    requires e.Empty?
    ensures Log(e) == Flatten(ChildLogs(e, |e.children|))
  {
    ChildrenLogIsFlatten(e, |e.children|);
  }

  /** A sprite's own call comes first, before its children's logs in insertion order, and
      the sprite is the first one in its pre-order listing. */
  lemma SpriteCallFirst(s: Artifact)
    requires s.Sprite?
    ensures Log(s) == [SpriteCall(s)] + Flatten(ChildLogs(s, |s.children|))
    ensures SpritesIn(Preorder(s))[0] == s
  {
    ChildrenLogIsFlatten(s, |s.children|);
    SpritesInConcat([s], ChildrenPreorder(s, |s.children|));
  }

  lemma {:induction false} ChildrenLogIsFlatten(p: Artifact, n: nat)
    requires n <= |p.children|
    ensures ChildrenLog(p, n) == Flatten(ChildLogs(p, n))
  {
    if n > 0 {
      ChildrenLogIsFlatten(p, n - 1);
      assert ChildLogs(p, n)[..n - 1] == ChildLogs(p, n - 1);
    }
  }

  lemma {:induction false} ChildrenLogWithChild(n: Artifact, c: Artifact, k: nat)
    requires k <= |n.children|
    ensures ChildrenLog(WithChild(n, c), k) == ChildrenLog(n, k)
  {
    if k > 0 {
      ChildrenLogWithChild(n, c, k - 1);
    }
  }

  /** Appending a child appends its calls after everything the node drew before. */
  lemma LogWithChild(n: Artifact, c: Artifact)
    ensures Log(WithChild(n, c)) == Log(n) + Log(c)
  {
    var m := WithChild(n, c);
    ChildrenLogWithChild(n, c, |n.children|);
    assert ChildrenLog(m, |m.children|) == ChildrenLog(n, |n.children|) + Log(c);
  }

  // ---------------------------------------------------------------------------
  // The draw protocol, threading the frame through the tree

  /** `c.draw(renderer, target)` on a boxed artifact: dispatch on the node's kind. */
  method Draw(a: Artifact, target: Frame) returns (t: Frame)
    ensures t == target + Log(a)
    decreases a, 1
  {
    match a
    case Sprite(_, _, _, _, _) =>
      t := target + [SpriteCall(a)];
      t := DrawChildren(a, t);
    case Empty(_, _) =>
      t := DrawChildren(a, target);
  }

  /** The loop `for c in &self.children { target = c.draw(renderer, target); }` shared by both kinds. */
  method DrawChildren(p: Artifact, target: Frame) returns (t: Frame)
    ensures t == target + ChildrenLog(p, |p.children|)
    decreases p, 0
  {
    t := target;
    for i := 0 to |p.children|
      invariant t == target + ChildrenLog(p, i)
    {
      t := Draw(p.children[i], t);
    }
  }

  /** `SpriteArtifact`: a textured quad placed by `shape` at `depth`, with children drawn on top of it. */
  class SpriteArtifact {
    var shape: Shape
    var image: TextureId
    var depth: real
    var name: string
    var children: seq<Artifact>

    constructor (shape: Shape, image: TextureId, depth: real, name: string, children: seq<Artifact>)
      ensures Value() == Sprite(name, shape, image, depth, children)
    {
      this.shape := shape;
      this.image := image;
      this.depth := depth;
      this.name := name;
      this.children := children;
    }

    /** The node as a boxed value. */
    function Value(): (v: Artifact)
      reads this
    {
      Sprite(name, shape, image, depth, children)
    }

    function Name(): (r: string)
      reads this
      ensures r == Value().name
    {
      name
    }

    function Children(): (r: seq<Artifact>)
      reads this
      ensures r == Value().children
    {
      children
    }

    method AddChild(artifact: Artifact)
      modifies this
      ensures children == old(children) + [artifact]
      ensures shape == old(shape) && image == old(image) && depth == old(depth) && name == old(name)
      ensures Value() == WithChild(old(Value()), artifact)
    {
      children := children + [artifact];
    }

    /** Issues the sprite's own call, then draws the children in insertion order. */
    method Draw(target: Frame) returns (t: Frame)
      ensures t == target + [SpriteCall(Value())] + ChildrenLog(Value(), |children|)
      ensures t == target + Log(Value())
    {
      t := target + [SpriteCall(Value())];
      t := DrawChildren(Value(), t);
    }
  }

  /** `EmptyArtifact`: a named group with no picture of its own. */
  class EmptyArtifact {
    var name: string
    var children: seq<Artifact>

    constructor (name: string, children: seq<Artifact>)
      ensures Value() == Empty(name, children)
    {
      this.name := name;
      this.children := children;
    }

    /** The node as a boxed value. */
    function Value(): (v: Artifact)
      reads this
    {
      Empty(name, children)
    }

    function Name(): (r: string)
      reads this
      ensures r == Value().name
    {
      name
    }

    function Children(): (r: seq<Artifact>)
      reads this
      ensures r == Value().children
    {
      children
    }

    method AddChild(artifact: Artifact)
      modifies this
      ensures children == old(children) + [artifact]
      ensures name == old(name)
      ensures Value() == WithChild(old(Value()), artifact)
    {
      children := children + [artifact];
    }

    /** Draws the children in insertion order and nothing else. */
    method Draw(target: Frame) returns (t: Frame)
      ensures t == target + ChildrenLog(Value(), |children|)
      ensures t == target + Log(Value())
    {
      t := DrawChildren(Value(), target);
    }
  }

  /** `draw` borrows the tree immutably: drawing the same scene twice issues the same calls. */
  method DrawTwice(root: EmptyArtifact, target: Frame) returns (first: Frame, second: Frame)
    ensures first == second
    ensures |first| == |target| + SpriteCount(root.Value())
  {
    first := root.Draw(target);
    second := root.Draw(target);
    CallCountIsSpriteCount(root.Value());
  }
}
