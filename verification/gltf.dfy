/** The glTF 2.0 vocabulary the converter emits: numeric codes, type tags, attribute
    semantics and the JSON records of the document, plus a model of the JavaScript
    numbers that can reach the output. */
module GlTF {
  import opened Wrappers

  // Component types (glTF 2.0, section 5.1.3 "accessor.componentType").
  const BYTE: nat := 5120
  const UNSIGNED_BYTE: nat := 5121
  const SHORT: nat := 5122
  const UNSIGNED_SHORT: nat := 5123
  const UNSIGNED_INT: nat := 5125
  const FLOAT: nat := 5126

  // Accessor type tags.
  const SCALAR: string := "SCALAR"
  const VEC2: string := "VEC2"
  const VEC3: string := "VEC3"
  const VEC4: string := "VEC4"
  const MAT2: string := "MAT2"
  const MAT3: string := "MAT3"
  const MAT4: string := "MAT4"

  // Buffer view targets.
  const ARRAY_BUFFER: nat := 0x8892
  const ELEMENT_ARRAY_BUFFER: nat := 0x8893

  // Attribute semantics.
  const POSITION: string := "POSITION"
  const NORMAL: string := "NORMAL"
  const TEXCOORD: string := "TEXCOORD"
  const COLOR: string := "COLOR"
  const JOINTS: string := "JOINTS"
  const WEIGHTS: string := "WEIGHTS"

  const BLEND: string := "BLEND"

  // Sampler wrap modes.
  const REPEAT: nat := 10497
  const CLAMP_TO_EDGE: nat := 33071
  const MIRRORED_REPEAT: nat := 33648

  /** A JavaScript number as far as this converter can produce one: a finite value, or the
      NaN / infinities that division by zero and empty min/max scans yield. */
  datatype JsNumber = Finite(r: real) | NaN | Infinity(negative: bool)

  /** JavaScript `a / b` for finite operands: a finite quotient exactly when the divisor is
      not zero, NaN for 0 / 0, and otherwise an infinity with the dividend's sign. */
  function Divide(a: real, b: real): (q: JsNumber)
    ensures q.Finite? <==> b != 0.0
    ensures q.Finite? ==> q.r * b == a
    ensures q.NaN? <==> b == 0.0 && a == 0.0
    ensures q.Infinity? ==> (q.negative <==> a < 0.0)
  {
    if b != 0.0 then Finite(a / b)
    else if a == 0.0 then NaN
    else Infinity(a < 0.0)
  }

  type byte = b: int | 0 <= b < 256

  /** The bytes a `Float32Array` stores for one number (IEEE 754 single precision, in the
      platform's byte order); rounding to single precision is part of this map. */
  type Float32Encoder = JsNumber -> seq<byte>

  ghost predicate FourBytes(f32: Float32Encoder) {
    forall x :: |f32(x)| == 4
  }

  /** The bytes of a `Float32Array` holding `xs`: four per number, in order. */
  function EncodeFloats(f32: Float32Encoder, xs: seq<JsNumber>): (r: seq<byte>)
    requires FourBytes(f32)
    ensures |r| == 4 * |xs|
    ensures forall i :: 0 <= i < |xs| ==> r[4 * i..4 * i + 4] == f32(xs[i])
  {
    if xs == [] then []
    else
      var rest := EncodeFloats(f32, xs[1..]);
      var r := f32(xs[0]) + rest;
      assert forall i :: 1 <= i < |xs| ==> r[4 * i..4 * i + 4] == rest[4 * (i - 1)..4 * (i - 1) + 4];
      r
  }

  /** `Uint16Array.from`: each number is reduced modulo 2^16 and stored in two bytes, low
      byte first (the byte order of every platform the converter ships for). */
  function Uint16Bytes(j: nat): (r: seq<byte>)
    ensures |r| == 2 && r[0] as int + 256 * r[1] as int == j % 0x1_0000
  {
    var v := j % 0x1_0000;
    [v % 256, v / 256]
  }

  function EncodeUint16s(xs: seq<nat>): (r: seq<byte>)
    ensures |r| == 2 * |xs|
    ensures forall i :: 0 <= i < |xs| ==> r[2 * i..2 * i + 2] == Uint16Bytes(xs[i])
  {
    if xs == [] then []
    else
      var rest := EncodeUint16s(xs[1..]);
      var r := Uint16Bytes(xs[0]) + rest;
      assert forall i :: 1 <= i < |xs| ==> r[2 * i..2 * i + 2] == rest[2 * (i - 1)..2 * (i - 1) + 2];
      r
  }

  /** Number of components of an accessor type tag; unknown tags throw. */
  function GetComponents(accessorType: string): (r: Result<nat>)
    ensures r.Success? <==> accessorType in {SCALAR, VEC2, VEC3, VEC4, MAT2, MAT3, MAT4}
    ensures r.Failure? ==> r.error == UnknownComponent
    ensures r.Success? ==> 1 <= r.value <= 16
  {
    if accessorType == SCALAR then Success(1)
    else if accessorType == VEC2 then Success(2)
    else if accessorType == VEC3 then Success(3)
    else if accessorType == VEC4 then Success(4)
    else if accessorType == MAT2 then Success(4)
    else if accessorType == MAT3 then Success(9)
    else if accessorType == MAT4 then Success(16)
    else Failure(UnknownComponent)
  }

  /** The digit that ends a four-letter tag such as "VEC3", as a number. */
  function TagDigit(tag: string): int
    requires |tag| == 4
  {
    tag[3] as int - '0' as int
  }

  /** The count follows the tag: one for a scalar, n for a VECn and n * n for a MATn. */
  lemma ComponentsFromTag(accessorType: string)
    ensures accessorType == SCALAR ==> GetComponents(accessorType) == Success(1)
    ensures GetComponents(accessorType).Success? && |accessorType| == 4 && accessorType[..3] == "VEC" ==>
      GetComponents(accessorType).value == TagDigit(accessorType)
    ensures GetComponents(accessorType).Success? && |accessorType| == 4 && accessorType[..3] == "MAT" ==>
      GetComponents(accessorType).value == TagDigit(accessorType) * TagDigit(accessorType)
  {
    assert VEC2[3] == '2' && VEC3[3] == '3' && VEC4[3] == '4';
    assert MAT2[3] == '2' && MAT3[3] == '3' && MAT4[3] == '4';
    assert SCALAR[..3] == "SCA";
    assert VEC2[..3] == VEC3[..3] == VEC4[..3] == "VEC" && MAT2[..3] == MAT3[..3] == MAT4[..3] == "MAT";
  }

  // ---------------------------------------------------------------- JSON records

  datatype Node = Node(
    name: string,
    translation: Option<seq<real>>,
    rotation: Option<seq<real>>,
    scale: Option<seq<real>>,
    mesh: Option<nat>,
    skin: Option<nat>,
    children: Option<seq<nat>>)

  datatype Scene = Scene(name: string, nodes: Option<seq<nat>>)

  /** `attributes` is a JSON object; the pairs are kept in its key order. */
  datatype MeshPrimitive = MeshPrimitive(attributes: seq<(string, nat)>, material: Option<nat>)

  datatype Mesh = Mesh(name: string, primitives: seq<MeshPrimitive>)

  datatype Accessor = Accessor(
    name: string,
    bufferView: nat,
    byteOffset: Option<nat>,
    count: nat,
    accessorType: string,
    componentType: nat,
    min: Option<seq<JsNumber>>,
    max: Option<seq<JsNumber>>)

  datatype BufferView = BufferView(
    buffer: nat,
    byteLength: nat,
    byteOffset: Option<nat>,
    byteStride: Option<nat>,
    target: Option<nat>)

  datatype Buffer = Buffer(byteLength: nat)

  datatype Skin = Skin(joints: seq<nat>, inverseBindMatrices: nat)

  datatype TextureInfo = TextureInfo(index: nat)

  datatype Material = Material(
    name: string,
    baseColorTexture: Option<TextureInfo>,
    baseColorFactor: seq<real>,
    metallicFactor: real,
    roughnessFactor: real,
    normalTexture: Option<TextureInfo>,
    emissiveTexture: Option<TextureInfo>,
    alphaMode: Option<string>)

  /** An image with the converter's texture-info extension payload. */
  datatype Image = Image(name: string, uri: string, fileName: string, relativeFileName: string)

  datatype Sampler = Sampler(wrapS: nat, wrapT: nat)

  datatype Texture = Texture(name: string, sampler: nat, source: nat)

  datatype AnimationSampler = AnimationSampler(input: nat, output: nat)

  datatype AnimationChannel = AnimationChannel(sampler: nat, node: nat, path: string)

  datatype Animation = Animation(
    name: string,
    channels: seq<AnimationChannel>,
    samplers: seq<AnimationSampler>)

  datatype Asset = Asset(version: string, generator: Option<string>, copyright: Option<string>)
}
