/** The object model of cpp/geometric.cpp: a `MemoryStream` that collects
    the bytes written to it, boxes, spheres and meshes that save themselves
    to a stream, the two scene factories, the world they build, the
    visitor that saves the whole world, and the create commands with undo.
    The platform is the one the program is built for: 4-byte `float` and
    `int`, stored little-endian. A `float` is carried as its IEEE 754 bit
    pattern, since the program only ever copies its bytes. */
module Geometric {
  newtype Byte = b: int | 0 <= b < 0x100

  /** A 32-bit pattern: the bytes of a `float`. */
  newtype Bits32 = x: int | 0 <= x < 0x1_0000_0000

  /** A C++ `int`. */
  newtype Int32 = x: int | -0x8000_0000 <= x < 0x8000_0000

  datatype Option<T> = None | Some(value: T)

  /** The four bytes of a 32-bit pattern, lowest first. */
  function Le32(x: Bits32): (bs: seq<Byte>)
    ensures |bs| == 4
  {
    var q1 := x as int / 0x100;
    var q2 := q1 / 0x100;
    var q3 := q2 / 0x100;
    [(x as int % 0x100) as Byte, (q1 % 0x100) as Byte, (q2 % 0x100) as Byte, q3 as Byte]
  }

  /** The 32-bit pattern four little-endian bytes hold. */
  function FromLe32(bs: seq<Byte>): Bits32
    requires |bs| == 4
  {
    (bs[0] as int + 0x100 * (bs[1] as int + 0x100 * (bs[2] as int + 0x100 * bs[3] as int))) as Bits32
  }

  /** Reading back the bytes of a pattern gives the pattern, and different
      patterns have different bytes. */
  lemma Le32RoundTrip(x: Bits32)
    ensures FromLe32(Le32(x)) == x
  {
    var q1 := x as int / 0x100;
    var q2 := q1 / 0x100;
    assert x as int == x as int % 0x100 + 0x100 * q1;
    assert q1 == q1 % 0x100 + 0x100 * q2;
    assert q2 == q2 % 0x100 + 0x100 * (q2 / 0x100);
  }

  /** The bit pattern of a C++ `int`: two's complement. */
  function IntBits(n: Int32): (x: Bits32)
    ensures x as int % 0x1_0000_0000 == n as int % 0x1_0000_0000
  {
    if n < 0 then (n as int + 0x1_0000_0000) as Bits32 else n as int as Bits32
  }

  /** The `int` a 32-bit pattern holds. */
  function BitsInt(x: Bits32): Int32 {
    if x >= 0x8000_0000 then (x as int - 0x1_0000_0000) as Int32 else x as int as Int32
  }

  lemma IntBitsRoundTrip(n: Int32)
    ensures BitsInt(IntBits(n)) == n
  {
  }

  /** The bytes of an ASCII string literal, without its terminating zero. */
  function Ascii(s: string): (bs: seq<Byte>)
    requires forall i :: 0 <= i < |s| ==> s[i] as int < 0x100
    ensures |bs| == |s| && forall i :: 0 <= i < |s| ==> bs[i] as int == s[i] as int
  {
    if s == [] then [] else [s[0] as int as Byte] + Ascii(s[1..])
  }

  /** The bit patterns of the `float` literals the program uses. */
  const OneF: Bits32 := 0x3F80_0000
  const TwoF: Bits32 := 0x4000_0000
  const ThreeF: Bits32 := 0x4040_0000
  const FourF: Bits32 := 0x4080_0000

  /** The objects of a world: `Box`, `Sphere` and `Mesh` are serializable;
      `Plain` stands for an object that implements only `IObject`. */
  datatype SceneObject =
    | Box(x: Bits32, y: Bits32, z: Bits32)
    | Sphere(radius: Bits32)
    | Mesh(vertices: Int32, triangles: Int32)
    | Plain

  /** The bytes the object's `Save` writes: its class name, then its fields
      in declaration order; nothing for an object that is not
      `ISerializable`. */
  function Serialized(obj: SceneObject): (bs: seq<Byte>)
    ensures |bs| == match obj
      case Box(_, _, _) => 3 + 3 * 4
      case Sphere(_) => 6 + 4
      case Mesh(_, _) => 4 + 2 * 4
      case Plain => 0
  {
    match obj
    case Box(x, y, z) => Ascii("Box") + Le32(x) + Le32(y) + Le32(z)
    case Sphere(r) => Ascii("Sphere") + Le32(r)
    case Mesh(v, t) => Ascii("Mesh") + Le32(IntBits(v)) + Le32(IntBits(t))
    case Plain => []
  }

  /** The bytes `SaveEverything` writes for a world: each object's in
      order. */
  function SaveBytes(objs: seq<SceneObject>): seq<Byte> {
    if objs == [] then [] else Serialized(objs[0]) + SaveBytes(objs[1..])
  }

  /** Saving one more object appends its bytes. */
  lemma {:induction false} SaveBytesSnoc(objs: seq<SceneObject>, obj: SceneObject)
    ensures SaveBytes(objs + [obj]) == SaveBytes(objs) + Serialized(obj)
  {
    if objs != [] {
      assert (objs + [obj])[1..] == objs[1..] + [obj];
      SaveBytesSnoc(objs[1..], obj);
    }
  }

  /** Saving the next object of a world extends what was saved so far. */
  lemma SavePrefix(start: seq<Byte>, objs: seq<SceneObject>, i: int)
    requires 0 <= i < |objs|
    ensures start + SaveBytes(objs[..i]) + Serialized(objs[i]) == start + SaveBytes(objs[..i + 1])
  {
    var prefix := objs[..i];
    assert objs[..i + 1] == prefix + [objs[i]];
    SaveBytesSnoc(prefix, objs[i]);
    var a, b := SaveBytes(prefix), Serialized(objs[i]);
    assert start + a + b == start + (a + b);
  }

  /** The objects of a world that are saved, in order. */
  function Serializable(objs: seq<SceneObject>): (r: seq<SceneObject>)
    ensures |r| <= |objs|
    ensures forall o :: o in r <==> o in objs && !o.Plain?
    ensures (forall i :: 0 <= i < |objs| ==> !objs[i].Plain?) ==> r == objs
  {
    if objs == [] then []
    else if objs[0].Plain? then Serializable(objs[1..])
    else [objs[0]] + Serializable(objs[1..])
  }

  /** A reader for what `SaveEverything` writes: the class name picks the
      layout that follows. */
  function Parse(bs: seq<Byte>): Option<seq<SceneObject>>
    decreases |bs|
  {
    if bs == [] then Some([])
    else if |bs| >= 15 && bs[..3] == Ascii("Box") then
      var rest := Parse(bs[15..]);
      if rest.None? then None
      else Some([Box(FromLe32(bs[3..7]), FromLe32(bs[7..11]), FromLe32(bs[11..15]))] + rest.value)
    else if |bs| >= 10 && bs[..6] == Ascii("Sphere") then
      var rest := Parse(bs[10..]);
      if rest.None? then None else Some([Sphere(FromLe32(bs[6..10]))] + rest.value)
    else if |bs| >= 12 && bs[..4] == Ascii("Mesh") then
      var rest := Parse(bs[12..]);
      if rest.None? then None
      else Some([Mesh(BitsInt(FromLe32(bs[4..8])), BitsInt(FromLe32(bs[8..12])))] + rest.value)
    else None
  }

  /** The saved bytes of one object, followed by anything, parse as that
      object followed by whatever the rest parses as. */
  lemma ParseOne(obj: SceneObject, rest: seq<Byte>)
    requires !obj.Plain?
    ensures Parse(Serialized(obj) + rest) ==
      if Parse(rest).None? then None else Some([obj] + Parse(rest).value)
  {
    match obj
    case Box(x, y, z) => ParseBox(x, y, z, rest);
    case Sphere(r) => ParseSphere(r, rest);
    case Mesh(v, t) => ParseMesh(v, t, rest);
  }

  lemma ParseBox(x: Bits32, y: Bits32, z: Bits32, rest: seq<Byte>)
    ensures Parse(Serialized(Box(x, y, z)) + rest) ==
      if Parse(rest).None? then None else Some([Box(x, y, z)] + Parse(rest).value)
  {
    var bs := Serialized(Box(x, y, z)) + rest;
    assert bs[..3] == Ascii("Box") && bs[15..] == rest;
    assert bs[3..7] == Le32(x) && bs[7..11] == Le32(y) && bs[11..15] == Le32(z);
    Le32RoundTrip(x);
    Le32RoundTrip(y);
    Le32RoundTrip(z);
  }

  lemma ParseSphere(r: Bits32, rest: seq<Byte>)
    ensures Parse(Serialized(Sphere(r)) + rest) ==
      if Parse(rest).None? then None else Some([Sphere(r)] + Parse(rest).value)
  {
    var bs := Serialized(Sphere(r)) + rest;
    assert bs[0] as int == 'S' as int && Ascii("Box")[0] as int == 'B' as int;
    assert bs[..3] != Ascii("Box");
    assert bs[..6] == Ascii("Sphere") && bs[10..] == rest && bs[6..10] == Le32(r);
    Le32RoundTrip(r);
  }

  lemma ParseMesh(v: Int32, t: Int32, rest: seq<Byte>)
    ensures Parse(Serialized(Mesh(v, t)) + rest) ==
      if Parse(rest).None? then None else Some([Mesh(v, t)] + Parse(rest).value)
  {
    var bs := Serialized(Mesh(v, t)) + rest;
    assert bs[0] as int == 'M' as int && Ascii("Box")[0] as int == 'B' as int;
    assert Ascii("Sphere")[0] as int == 'S' as int;
    assert bs[..3] != Ascii("Box") && bs[..6] != Ascii("Sphere");
    assert bs[..4] == Ascii("Mesh") && bs[12..] == rest;
    assert bs[4..8] == Le32(IntBits(v)) && bs[8..12] == Le32(IntBits(t));
    Le32RoundTrip(IntBits(v));
    Le32RoundTrip(IntBits(t));
    IntBitsRoundTrip(v);
    IntBitsRoundTrip(t);
  }

  /** Saving loses nothing: the bytes of a world read back as exactly its
      serializable objects, in order. */
  lemma {:induction false} SaveParseRoundTrip(objs: seq<SceneObject>)
    ensures Parse(SaveBytes(objs)) == Some(Serializable(objs))
  {
    if objs != [] {
      SaveParseRoundTrip(objs[1..]);
      if !objs[0].Plain? {
        ParseOne(objs[0], SaveBytes(objs[1..]));
      } else {
        assert SaveBytes(objs) == [] + SaveBytes(objs[1..]) == SaveBytes(objs[1..]);
      }
    }
  }

  /** Every object of a world built by a factory is saved, so the saved
      bytes read back as the whole world. */
  lemma WorldRoundTrip(factory: Factory)
    ensures Parse(SaveBytes(WorldObjects(factory))) == Some(WorldObjects(factory))
  {
    SaveParseRoundTrip(WorldObjects(factory));
  }

  /** `MemoryStream`: an output stream that keeps every byte written. */
  class MemoryStream {
    var memory: seq<Byte>

    constructor()
      ensures memory == []
    {
      memory := [];
    }

    /** `WriteBytes`: append the first `count` bytes of the buffer, one at
        a time; a count that is not positive writes nothing. */
    method WriteBytes(buffer: seq<Byte>, count: int)
      requires count <= |buffer|
      modifies this
      ensures memory == old(memory) + buffer[..if count < 0 then 0 else count]
    {
      var i := 0;
      while i < count
        invariant 0 <= i <= |buffer| && (count >= 0 ==> i <= count) && (count < 0 ==> i == 0)
        invariant memory == old(memory) + buffer[..i]
      {
        memory := memory + [buffer[i]];
        i := i + 1;
      }
    }

    /** `size()`: the number of bytes held, as a `uint32_t`. */
    function Size(): (n: int)
      reads this
      ensures 0 <= n < 0x1_0000_0000
      ensures |memory| < 0x1_0000_0000 ==> n == |memory|
    {
      |memory| % 0x1_0000_0000
    }
  }

  /** `Box::Save`: "Box", then the three sizes. */
  method SaveBox(x: Bits32, y: Bits32, z: Bits32, stream: MemoryStream)
    modifies stream
    ensures stream.memory == old(stream.memory) + Serialized(Box(x, y, z))
  {
    var tag, sx, sy, sz := Ascii("Box"), Le32(x), Le32(y), Le32(z);
    stream.WriteBytes(tag, 3);
    stream.WriteBytes(sx, 4);
    stream.WriteBytes(sy, 4);
    stream.WriteBytes(sz, 4);
    assert tag[..3] == tag && sx[..4] == sx && sy[..4] == sy && sz[..4] == sz;
    assert stream.memory == old(stream.memory) + (tag + sx + sy + sz);
  }

  /** `Sphere::Save`: "Sphere", then the radius. */
  method SaveSphere(radius: Bits32, stream: MemoryStream)
    modifies stream
    ensures stream.memory == old(stream.memory) + Serialized(Sphere(radius))
  {
    var tag, br := Ascii("Sphere"), Le32(radius);
    stream.WriteBytes(tag, 6);
    stream.WriteBytes(br, 4);
    assert tag[..6] == tag && br[..4] == br;
    assert stream.memory == old(stream.memory) + (tag + br);
  }

  /** `Mesh::Save`: "Mesh", then the vertex and triangle counts. */
  method SaveMesh(vertices: Int32, triangles: Int32, stream: MemoryStream)
    modifies stream
    ensures stream.memory == old(stream.memory) + Serialized(Mesh(vertices, triangles))
  {
    var tag, bv, bt := Ascii("Mesh"), Le32(IntBits(vertices)), Le32(IntBits(triangles));
    stream.WriteBytes(tag, 4);
    stream.WriteBytes(bv, 4);
    stream.WriteBytes(bt, 4);
    assert tag[..4] == tag && bv[..4] == bv && bt[..4] == bt;
    assert stream.memory == old(stream.memory) + (tag + bv + bt);
  }

  /** The visitor's step: `Save` through `ISerializable` when the object
      has it, nothing otherwise. */
  method Save(obj: SceneObject, stream: MemoryStream)
    modifies stream
    ensures stream.memory == old(stream.memory) + Serialized(obj)
  {
    match obj {
      case Box(x, y, z) => SaveBox(x, y, z, stream);
      case Sphere(r) => SaveSphere(r, stream);
      case Mesh(v, t) => SaveMesh(v, t, stream);
      case Plain =>
    }
  }

  /** The two scene factories. */
  datatype Factory = GeomFactory | MeshFactory {
    /** `CreateBox`: a box of the given size, or the stand-in mesh of a box
        whatever the size. */
    function CreateBox(x: Bits32, y: Bits32, z: Bits32): (obj: SceneObject)
      ensures this == GeomFactory ==> obj == Box(x, y, z)
      ensures this == MeshFactory ==> obj == Mesh(8, 12)
    {
      match this
      case GeomFactory => Box(x, y, z)
      case MeshFactory => Mesh(8, 12)
    }

    /** `CreateSphere`: a sphere of the given radius, or a 36-by-36 stand-in
        mesh whatever the radius. */
    function CreateSphere(radius: Bits32): (obj: SceneObject)
      ensures this == GeomFactory ==> obj == Sphere(radius)
      ensures this == MeshFactory ==> obj == Mesh(36 * 36, 36 * 36 * 2)
    {
      match this
      case GeomFactory => Sphere(radius)
      case MeshFactory => Mesh(36 * 36, 36 * 36 * 2)
    }
  }

  /** The shared world: the objects in creation order. */
  class World {
    var objects: seq<SceneObject>

    constructor()
      ensures objects == []
    {
      objects := [];
    }
  }

  /** The objects `CreateWorld` adds: a 2 x 3 x 4 box and spheres of radius
      1 and 2. */
  function WorldObjects(factory: Factory): (objs: seq<SceneObject>)
    ensures |objs| == 3 && forall i :: 0 <= i < 3 ==> !objs[i].Plain?
  {
    [factory.CreateBox(TwoF, ThreeF, FourF), factory.CreateSphere(OneF), factory.CreateSphere(TwoF)]
  }

  /** `CreateWorld`. */
  method CreateWorld(factory: Factory) returns (world: World)
    ensures fresh(world)
    ensures world.objects == WorldObjects(factory)
  {
    world := new World();
    world.objects := world.objects + [factory.CreateBox(TwoF, ThreeF, FourF)];
    world.objects := world.objects + [factory.CreateSphere(OneF)];
    world.objects := world.objects + [factory.CreateSphere(TwoF)];
  }

  /** `SaveEverything`: visit the objects in order and save each one that is
      `ISerializable`. */
  method SaveEverything(world: World, stream: MemoryStream)
    modifies stream
    ensures stream.memory == old(stream.memory) + SaveBytes(world.objects)
  {
    var objs := world.objects;
    ghost var start := stream.memory;
    var i := 0;
    while i < |objs|
      invariant 0 <= i <= |objs|
      invariant stream.memory == start + SaveBytes(objs[..i])
    {
      SavePrefix(start, objs, i);
      Save(objs[i], stream);
      i := i + 1;
    }
    assert objs[..i] == objs;
  }

  /** The `MemoryStream` part of `SaveMethods`: the size it reports for a
      world is the length of the world's saved bytes. */
  method SaveToMemory(world: World) returns (size: int)
    ensures size == |SaveBytes(world.objects)| % 0x1_0000_0000
  {
    var stream := new MemoryStream();
    SaveEverything(world, stream);
    size := stream.Size();
  }

  /** The world holds 35 bytes with geometric objects (a 15-byte box and two
      10-byte spheres) and 36 with stand-in meshes (three of 12 bytes). */
  lemma WorldSizes()
    ensures |SaveBytes(WorldObjects(GeomFactory))| == 35
    ensures |SaveBytes(WorldObjects(MeshFactory))| == 36
  {
    var g := WorldObjects(GeomFactory);
    assert g[1..][1..][1..] == [];
    var m := WorldObjects(MeshFactory);
    assert m[1..][1..][1..] == [];
  }

  /** `CreateBoxCommand`. The factory it uses is passed in; the source
      leaves that member unset. */
  class CreateBoxCommand {
    const world: World
    const x: Bits32
    const y: Bits32
    const z: Bits32
    const factory: Factory

    constructor(world: World, x: Bits32, y: Bits32, z: Bits32, factory: Factory)
      ensures this.world == world && this.x == x && this.y == y && this.z == z && this.factory == factory
    {
      this.world := world;
      this.x := x;
      this.y := y;
      this.z := z;
      this.factory := factory;
    }

    /** `CommandDo`: add the factory's box at the end of the world. */
    method CommandDo()
      modifies world
      ensures world.objects == old(world.objects) + [factory.CreateBox(x, y, z)]
    {
      world.objects := world.objects + [factory.CreateBox(x, y, z)];
    }

    /** `CommandUndo`: drop the last object of the world, which must not be
        empty (`pop_back` on an empty vector is undefined). */
    method CommandUndo()
      requires world.objects != []
      modifies world
      ensures world.objects == old(world.objects)[..|old(world.objects)| - 1]
    {
      world.objects := world.objects[..|world.objects| - 1];
    }
  }

  /** `CreateSphereCommand`. */
  class CreateSphereCommand {
    const world: World
    const radius: Bits32
    const factory: Factory

    constructor(world: World, radius: Bits32, factory: Factory)
      ensures this.world == world && this.radius == radius && this.factory == factory
    {
      this.world := world;
      this.radius := radius;
      this.factory := factory;
    }

    /** `CommandDo`: add the factory's sphere at the end of the world. */
    method CommandDo()
      modifies world
      ensures world.objects == old(world.objects) + [factory.CreateSphere(radius)]
    {
      world.objects := world.objects + [factory.CreateSphere(radius)];
    }

    /** `CommandUndo`: drop the last object of the world. */
    method CommandUndo()
      requires world.objects != []
      modifies world
      ensures world.objects == old(world.objects)[..|old(world.objects)| - 1]
    {
      world.objects := world.objects[..|world.objects| - 1];
    }
  }

  /** Doing a command and undoing it leaves the world as it was. */
  method DoThenUndo(box: CreateBoxCommand, sphere: CreateSphereCommand)
    modifies box.world, sphere.world
    ensures box.world.objects == old(box.world.objects)
    ensures sphere.world.objects == old(sphere.world.objects)
  {
    box.CommandDo();
    box.CommandUndo();
    sphere.CommandDo();
    sphere.CommandUndo();
  }
}
