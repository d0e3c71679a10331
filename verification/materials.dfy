/** Materials: an FBX Lambert or Phong surface becomes a glTF metallic-roughness material.
    Each file texture the material references becomes an image, a sampler and a texture.
    The texture's file location and image data come from the file system. The model takes
    them as given, so the URI is an input here. */
module Materials {
  import opened Wrappers
  import opened GlTF
  import opened Builder

  /** Name of the extension that carries the texture's original file names. */
  const TEXTURE_INFO_EXTENSION: string := "COCOS_fbxsdk_texture_info"

  /** FBX texture wrap modes, as `FbxTexture::EWrapMode` numbers them. */
  const eRepeat: int := 0
  const eClamp: int := 1

  /** An FBX colour or vector of three doubles. */
  datatype Double3 = Double3(x: real, y: real, z: real)

  /** A file texture as the converter reads it. The URI has already been resolved by file
      system access. */
  datatype FileTexture = FileTexture(
    name: string,
    wrapU: int,
    wrapV: int,
    uri: string,
    fileName: string,
    relativeFileName: string)

  /** The surface class: anything that is not a Lambert surface, a plain Lambert surface, or a
      Phong surface (a Lambert surface with specular terms). */
  datatype Shading =
    | NotLambert
    | Lambert
    | Phong(specular: Double3, specularFactor: real, shininess: real)

  /** The properties of an FBX surface material that the converter reads. Each `Option`
      texture is the file texture connected to that property, if there is one. */
  datatype FbxMaterial = FbxMaterial(
    name: string,
    shading: Shading,
    transparentColor: Double3,
    transparencyFactor: real,
    diffuse: Double3,
    diffuseTexture: Option<FileTexture>,
    normalMap: Option<FileTexture>,
    bump: Option<FileTexture>,
    emissive: Option<FileTexture>,
    emissiveFactor: real)

  // ------------------------------------------------------------ textures

  /** Repeat maps to glTF REPEAT. Every other mode, clamp included, maps to CLAMP_TO_EDGE. */
  function ConvertWrapMode(mode: int): (r: nat)
    ensures r == REPEAT <==> mode == eRepeat
    ensures r == REPEAT || r == CLAMP_TO_EDGE
  {
    if mode == eRepeat then REPEAT else CLAMP_TO_EDGE
  }

  /** Reads a glTF wrap mode back as an FBX one: REPEAT is repeat, anything else clamp. */
  function WrapModeBack(code: nat): int {
    if code == REPEAT then eRepeat else eClamp
  }

  /** The two FBX modes survive the conversion and come back unchanged; no mode becomes
      MIRRORED_REPEAT, and a mode is converted like clamp exactly when it is not repeat. */
  lemma WrapModeRoundTrip(mode: int)
    ensures mode == eRepeat || mode == eClamp ==> WrapModeBack(ConvertWrapMode(mode)) == mode
    ensures ConvertWrapMode(mode) != MIRRORED_REPEAT
    ensures ConvertWrapMode(mode) == ConvertWrapMode(eClamp) <==> mode != eRepeat
  {
  }

  function ImageOf(t: FileTexture): Image {
    Image(t.name, t.uri, t.fileName, t.relativeFileName)
  }

  /** A file texture is converted in this order: its image, after the texture-info extension
      is recorded as used; then its sampler from the two wrap modes; then the texture that joins
      them. Nothing else in the builder changes. */
  function ConvertFileTexture(b: Builder, t: FileTexture): (r: (Builder, nat))
    ensures r.1 == |b.textures|
    ensures r.0.textures == b.textures + [Texture(t.name, |b.samplers|, |b.images|)]
    ensures r.0.samplers == b.samplers + [Sampler(ConvertWrapMode(t.wrapU), ConvertWrapMode(t.wrapV))]
    ensures r.0.images == b.images + [ImageOf(t)]
    ensures TEXTURE_INFO_EXTENSION in r.0.extensionsUsed
    ensures r.0.extensionsUsed == UseExtension(b, TEXTURE_INFO_EXTENSION).extensionsUsed
    ensures r.0 == b.(textures := r.0.textures, samplers := r.0.samplers, images := r.0.images,
                      extensionsUsed := r.0.extensionsUsed)
  {
    var b1 := UseExtension(b, TEXTURE_INFO_EXTENSION);
    var (b2, image) := AddImage(b1, ImageOf(t));
    var (b3, sampler) := AddSampler(b2, Sampler(ConvertWrapMode(t.wrapU), ConvertWrapMode(t.wrapV)));
    AddTexture(b3, Texture(t.name, sampler, image))
  }

  /** The texture connected to a property: -1 when there is none, otherwise the index of the
      texture just created for it. */
  function ConvertTextureProperty(b: Builder, p: Option<FileTexture>): (r: (Builder, int))
    ensures r.1 < 0 <==> p.None?
    ensures p.None? ==> r == (b, -1)
    ensures p.Some? ==> r.1 == |b.textures| && r.0 == ConvertFileTexture(b, p.value).0
    ensures |r.0.textures| == |b.textures| + (if p.Some? then 1 else 0)
    ensures r.0.textures[..|b.textures|] == b.textures
    ensures p.Some? ==> r.0.textures[r.1].name == p.value.name
    ensures r.0.materials == b.materials
  {
    if p.None? then (b, -1)
    else
      var (b', index) := ConvertFileTexture(b, p.value);
      (b', index as int)
  }

  /** How many textures one material creates: one each for diffuse and emissive, and two for
      the normal map, because its lookup runs twice. */
  function TexturesCreated(m: FbxMaterial): nat {
    (if m.diffuseTexture.Some? then 1 else 0) + (if m.normalMap.Some? then 2 else 0) +
    (if m.emissive.Some? then 1 else 0)
  }

  // ------------------------------------------------------------ factors

  /** The alpha value: one minus the transparency factor times the mean of the transparent
      colour's channels. */
  function Transparency(m: FbxMaterial): real {
    var c := m.transparentColor;
    1.0 - m.transparencyFactor * (c.x + c.y + c.z) / 3.0
  }

  /** A material is see-through exactly when the transparency factor times the channel sum
      of the transparent colour is positive. */
  lemma TransparentIff(m: FbxMaterial)
    ensures Transparency(m) < 1.0 <==>
      m.transparencyFactor * (m.transparentColor.x + m.transparentColor.y + m.transparentColor.z) > 0.0
  {
  }

  /** The specular colour: the Phong specular colour scaled by the specular factor, or black
      for a plain Lambert surface. */
  function SpecularColor(s: Shading): Double3 {
    match s
    case Phong(c, f, _) => Double3(c.x * f, c.y * f, c.z * f)
    case _ => Double3(0.0, 0.0, 0.0)
  }

  /** Metalness is one when the specular colour's red channel exceeds one half, and zero
      otherwise. The base colour does not influence it. */
  function MetalnessFromSpecular(specular: Double3, baseColorFactor: seq<real>): (r: real)
    ensures r == 0.0 || r == 1.0
    ensures r == 1.0 <==> specular.x > 0.5
  {
    if specular.x > 0.5 then 1.0 else 0.0
  }

  /** Only a Phong surface can be metallic, and exactly when its specular red channel times
      the specular factor exceeds one half; a plain Lambert surface never is. */
  lemma MetallicOnlyForPhong(s: Shading, baseColorFactor: seq<real>)
    ensures MetalnessFromSpecular(SpecularColor(s), baseColorFactor) == 1.0 <==>
      s.Phong? && s.specular.x * s.specularFactor > 0.5
    ensures !s.Phong? ==> MetalnessFromSpecular(SpecularColor(s), baseColorFactor) == 0.0
  {
  }

  // ------------------------------------------------------------ the material

  /** The glTF material of a Lambert or Phong surface, given the texture indices the property
      lookups produced (-1 for none). `roughnessOf` maps a Phong shininess exponent to a
      roughness. The source computes it with logarithms, so the model takes it as a parameter. */
  function MaterialFrom(m: FbxMaterial, diffuseIndex: int, normalIndex: int, bumpIndex: int, emissiveIndex: int,
                        roughnessOf: real -> real): Material
  {
    var alpha := Transparency(m);
    var rgb := if diffuseIndex < 0 then [m.diffuse.x, m.diffuse.y, m.diffuse.z] else [1.0, 1.0, 1.0];
    var baseColorFactor := rgb + [if alpha < 1.0 then alpha else 1.0];
    var normalTexture :=
      if bumpIndex >= 0 then Some(TextureInfo(bumpIndex))
      else if normalIndex >= 0 then Some(TextureInfo(normalIndex))
      else None;
    Material(
      m.name,
      if diffuseIndex < 0 then None else Some(TextureInfo(diffuseIndex)),
      baseColorFactor,
      MetalnessFromSpecular(SpecularColor(m.shading), baseColorFactor),
      if m.shading.Phong? then roughnessOf(m.shading.shininess) else 1.0,
      normalTexture,
      if emissiveIndex < 0 then None else Some(TextureInfo(emissiveIndex)),
      if alpha < 1.0 then Some(BLEND) else None)
  }

  /** The meaning of a converted material, stated against the FBX surface: transparency decides
      blending and the alpha channel; a diffuse texture replaces the diffuse colour; each
      texture slot is filled exactly when its property has a texture; metalness and roughness
      come from the Phong terms, with defaults for a plain Lambert surface. */
  predicate MaterialMeans(m: FbxMaterial, x: Material, roughnessOf: real -> real) {
    && x.name == m.name
    && BlendingMeans(m, x)
    && BaseColorMeans(m, x)
    && SlotsMean(m, x)
    && PbrMeans(m, x, roughnessOf)
  }

  /** Blending is on exactly when the surface lets light through, and the alpha channel is
      the transparency then and one otherwise. */
  predicate BlendingMeans(m: FbxMaterial, x: Material) {
    && |x.baseColorFactor| == 4
    && (x.alphaMode.Some? ==> x.alphaMode == Some(BLEND))
    && (x.alphaMode == Some(BLEND) <==> x.baseColorFactor[3] < 1.0)
    && (x.alphaMode == Some(BLEND) <==> Transparency(m) < 1.0)
    && (x.alphaMode.None? ==> x.baseColorFactor[3] == 1.0)
    && (x.alphaMode.Some? ==> x.baseColorFactor[3] == Transparency(m))
  }

  /** A diffuse texture replaces the diffuse colour, which otherwise gives the base colour. */
  predicate BaseColorMeans(m: FbxMaterial, x: Material) {
    && |x.baseColorFactor| == 4
    && (x.baseColorTexture.None? <==> m.diffuseTexture.None?)
    && (m.diffuseTexture.None? ==> x.baseColorFactor[..3] == [m.diffuse.x, m.diffuse.y, m.diffuse.z])
    && (m.diffuseTexture.Some? ==> x.baseColorFactor[..3] == [1.0, 1.0, 1.0])
  }

  /** Each texture slot is filled exactly when its property has a texture. */
  predicate SlotsMean(m: FbxMaterial, x: Material) {
    && (x.baseColorTexture.None? <==> m.diffuseTexture.None?)
    && (x.normalTexture.None? <==> m.normalMap.None?)
    && (x.emissiveTexture.None? <==> m.emissive.None?)
  }

  /** Metalness and roughness come from the Phong terms, with defaults for plain Lambert. */
  predicate PbrMeans(m: FbxMaterial, x: Material, roughnessOf: real -> real) {
    && (x.metallicFactor == 1.0 <==> m.shading.Phong? && m.shading.specular.x * m.shading.specularFactor > 0.5)
    && (x.metallicFactor == 0.0 || x.metallicFactor == 1.0)
    && x.roughnessFactor == (if m.shading.Phong? then roughnessOf(m.shading.shininess) else 1.0)
  }

  /** Each texture slot of the material names a texture converted from the property that fills
      it. The normal slot names the second of the normal map's two textures. */
  predicate TexturesFrom(m: FbxMaterial, x: Material, b: Builder, b': Builder) {
    && |b'.textures| == |b.textures| + TexturesCreated(m)
    && b'.textures[..|b.textures|] == b.textures
    && (x.baseColorTexture.Some? ==>
          m.diffuseTexture.Some? && x.baseColorTexture.value.index < |b'.textures| &&
          b'.textures[x.baseColorTexture.value.index].name == m.diffuseTexture.value.name)
    && (x.normalTexture.Some? ==>
          m.normalMap.Some? && 1 <= x.normalTexture.value.index < |b'.textures| &&
          b'.textures[x.normalTexture.value.index].name == m.normalMap.value.name &&
          b'.textures[x.normalTexture.value.index - 1].name == m.normalMap.value.name)
    && (x.emissiveTexture.Some? ==>
          m.emissive.Some? && x.emissiveTexture.value.index < |b'.textures| &&
          b'.textures[x.emissiveTexture.value.index].name == m.emissive.value.name)
  }

  /** Converts a Lambert or Phong surface. The texture lookups run for the diffuse property,
      then twice for the normal map (the lookup meant for the bump map reads the normal map
      again), then for the emissive property. Then the material is added. */
  function ConvertLambertMaterial(b: Builder, m: FbxMaterial, roughnessOf: real -> real): (r: (Builder, nat))
    requires !m.shading.NotLambert?
    ensures r.1 == |b.materials|
    ensures |r.0.materials| == r.1 + 1 && b.materials <= r.0.materials
    ensures MaterialMeans(m, r.0.materials[r.1], roughnessOf)
    ensures TexturesFrom(m, r.0.materials[r.1], b, r.0)
  {
    var (b4, x) := LambertParts(b, m, roughnessOf);
    AddMaterial(b4, x)
  }

  /** The four texture lookups and the material built from their indices, before the
      material is appended. */
  function LambertParts(b: Builder, m: FbxMaterial, roughnessOf: real -> real): (r: (Builder, Material))
    requires !m.shading.NotLambert?
    ensures r.0.materials == b.materials
    ensures MaterialMeans(m, r.1, roughnessOf)
    ensures TexturesFrom(m, r.1, b, AddMaterial(r.0, r.1).0)
  {
    var (b1, diffuseIndex) := ConvertTextureProperty(b, m.diffuseTexture);
    var (b2, normalIndex) := ConvertTextureProperty(b1, m.normalMap);
    var (b3, bumpIndex) := ConvertTextureProperty(b2, m.normalMap);
    var (b4, emissiveIndex) := ConvertTextureProperty(b3, m.emissive);
    var x := MaterialFrom(m, diffuseIndex, normalIndex, bumpIndex, emissiveIndex, roughnessOf);
    MaterialFromMeans(m, diffuseIndex, normalIndex, bumpIndex, emissiveIndex, roughnessOf);
    TexturesOfLookups(m, b, b1, b2, b3, b4, diffuseIndex, normalIndex, bumpIndex, emissiveIndex, roughnessOf, x);
    (b4, x)
  }

  lemma MaterialFromMeans(m: FbxMaterial, diffuseIndex: int, normalIndex: int, bumpIndex: int, emissiveIndex: int,
                          roughnessOf: real -> real)
    requires diffuseIndex < 0 <==> m.diffuseTexture.None?
    requires normalIndex < 0 <==> m.normalMap.None?
    requires bumpIndex < 0 <==> m.normalMap.None?
    requires emissiveIndex < 0 <==> m.emissive.None?
    ensures MaterialMeans(m, MaterialFrom(m, diffuseIndex, normalIndex, bumpIndex, emissiveIndex, roughnessOf), roughnessOf)
  {
    var x := MaterialFrom(m, diffuseIndex, normalIndex, bumpIndex, emissiveIndex, roughnessOf);
    var rgb := if diffuseIndex < 0 then [m.diffuse.x, m.diffuse.y, m.diffuse.z] else [1.0, 1.0, 1.0];
    BlendingOf(m, rgb, x);
    BaseColorOf(m, rgb, x, diffuseIndex < 0);
    PbrOf(m, x, roughnessOf);
  }

  lemma BlendingOf(m: FbxMaterial, rgb: seq<real>, x: Material)
    requires |rgb| == 3
    requires x.baseColorFactor == rgb + [if Transparency(m) < 1.0 then Transparency(m) else 1.0]
    requires x.alphaMode == if Transparency(m) < 1.0 then Some(BLEND) else None
    ensures BlendingMeans(m, x)
  {
  }

  lemma BaseColorOf(m: FbxMaterial, rgb: seq<real>, x: Material, untextured: bool)
    requires |x.baseColorFactor| == 4 && x.baseColorFactor[..3] == rgb
    requires untextured <==> m.diffuseTexture.None?
    requires x.baseColorTexture.None? <==> untextured
    requires rgb == if untextured then [m.diffuse.x, m.diffuse.y, m.diffuse.z] else [1.0, 1.0, 1.0]
    ensures BaseColorMeans(m, x)
  {
  }

  lemma PbrOf(m: FbxMaterial, x: Material, roughnessOf: real -> real)
    requires x.metallicFactor == MetalnessFromSpecular(SpecularColor(m.shading), x.baseColorFactor)
    requires x.roughnessFactor == if m.shading.Phong? then roughnessOf(m.shading.shininess) else 1.0
    ensures PbrMeans(m, x, roughnessOf)
  {
    var red := SpecularColor(m.shading).x;
    if m.shading.Phong? {
      assert red == m.shading.specular.x * m.shading.specularFactor;
    } else {
      assert red == 0.0;
    }
    assert x.metallicFactor == 1.0 <==> red > 0.5;
  }

  /** The textures the four lookups create, and where the material's slots point. */
  lemma TexturesOfLookups(m: FbxMaterial, b: Builder, b1: Builder, b2: Builder, b3: Builder, b4: Builder,
                          diffuseIndex: int, normalIndex: int, bumpIndex: int, emissiveIndex: int,
                          roughnessOf: real -> real, x: Material)
    requires (b1, diffuseIndex) == ConvertTextureProperty(b, m.diffuseTexture)
    requires (b2, normalIndex) == ConvertTextureProperty(b1, m.normalMap)
    requires (b3, bumpIndex) == ConvertTextureProperty(b2, m.normalMap)
    requires (b4, emissiveIndex) == ConvertTextureProperty(b3, m.emissive)
    requires x == MaterialFrom(m, diffuseIndex, normalIndex, bumpIndex, emissiveIndex, roughnessOf)
    ensures TexturesFrom(m, x, b, AddMaterial(b4, x).0)
  {
    var n := |b.textures|;
    var x' := AddMaterial(b4, x).0;
    assert x'.textures == b4.textures;
    PrefixChain(b.textures, b1.textures, b2.textures, b3.textures, b4.textures);
  }

  lemma PrefixChain<T>(t0: seq<T>, t1: seq<T>, t2: seq<T>, t3: seq<T>, t4: seq<T>)
    requires |t0| <= |t1| <= |t2| <= |t3| <= |t4|
    requires t1[..|t0|] == t0 && t2[..|t1|] == t1 && t3[..|t2|] == t2 && t4[..|t3|] == t3
    ensures t4[..|t0|] == t0 && t4[..|t1|] == t1 && t4[..|t2|] == t2
  {
    assert t4[..|t2|] == t3[..|t2|];
    assert t4[..|t1|] == t2[..|t1|];
    assert t4[..|t0|] == t1[..|t0|];
  }


  /** The surface's bump property plays no part: two materials that differ only there convert
      identically. */
  lemma BumpIgnored(b: Builder, m: FbxMaterial, bump: Option<FileTexture>, roughnessOf: real -> real)
    requires !m.shading.NotLambert?
    ensures ConvertLambertMaterial(b, m.(bump := bump), roughnessOf) == ConvertLambertMaterial(b, m, roughnessOf)
  {
    var m' := m.(bump := bump);
    assert m'.diffuseTexture == m.diffuseTexture && m'.normalMap == m.normalMap && m'.emissive == m.emissive;
    forall d, n, u, e
      ensures MaterialFrom(m', d, n, u, e, roughnessOf) == MaterialFrom(m, d, n, u, e, roughnessOf)
    {
      assert Transparency(m') == Transparency(m);
    }
  }

  /** Any surface: a Lambert or Phong surface becomes a material, anything else yields -1
      and leaves the builder unchanged. */
  function ConvertMaterial(b: Builder, m: FbxMaterial, roughnessOf: real -> real): (r: (Builder, int))
    ensures r.1 < 0 <==> m.shading.NotLambert?
    ensures r.1 < 0 ==> r == (b, -1)
    ensures r.1 >= 0 ==>
      r.1 == |b.materials| && |r.0.materials| == r.1 + 1 && MaterialMeans(m, r.0.materials[r.1], roughnessOf)
  {
    if m.shading.NotLambert? then (b, -1)
    else
      var (b', index) := ConvertLambertMaterial(b, m, roughnessOf);
      (b', index as int)
  }
}
