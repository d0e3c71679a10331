/** Naming helpers of the writer: image MIME types from file extensions and back, and the file
    names of the external binary buffers. */
module Writer {
  import opened Decimal

  const IMAGE_PREFIX: string := "image/"

  predicate StartsWith(s: string, prefix: string) {
    |prefix| <= |s| && s[..|prefix|] == prefix
  }

  /** The MIME type of an image extension. Only the undotted literals "jpg", "jpeg" and "png"
      are recognised. A dotted extension ".X" becomes "image/X", and anything else passes
      through unchanged. */
  function MimeTypeFromExtension(extName: string): (r: string)
    ensures extName == "jpg" || extName == "jpeg" ==> r == "image/jpeg"
    ensures extName == "png" ==> r == "image/png"
    ensures StartsWith(extName, ".") ==> r == IMAGE_PREFIX + extName[1..]
    ensures extName !in {"jpg", "jpeg", "png"} && !StartsWith(extName, ".") ==> r == extName
  {
    if extName == "jpg" || extName == "jpeg" then
      assert extName[..1] == "j";
      "image/jpeg"
    else if extName == "png" then
      assert extName[..1] == "p";
      "image/png"
    else if StartsWith(extName, ".") then IMAGE_PREFIX + extName[1..]
    else extName
  }

  /** The extension of a MIME type: ".jpg" for JPEG, otherwise a dot followed by the type with
      any "image/" prefix removed. */
  function ExtensionFromMimeType(mimeType: string): (r: string)
    ensures |r| >= 1 && r[0] == '.'
    ensures mimeType == "image/jpeg" ==> r == ".jpg"
    ensures mimeType != "image/jpeg" && StartsWith(mimeType, IMAGE_PREFIX) ==> r == "." + mimeType[|IMAGE_PREFIX|..]
    ensures !StartsWith(mimeType, IMAGE_PREFIX) ==> r == "." + mimeType
  {
    if mimeType == "image/jpeg" then ".jpg"
    else
      var extNameNoDot := if StartsWith(mimeType, IMAGE_PREFIX) then mimeType[|IMAGE_PREFIX|..] else mimeType;
      "." + extNameNoDot
  }

  /** Every dotted extension except ".jpeg" survives the trip to a MIME type and back. */
  lemma ExtensionRoundTrip(extName: string)
    requires StartsWith(extName, ".") && extName != ".jpeg"
    ensures ExtensionFromMimeType(MimeTypeFromExtension(extName)) == extName
  {
    var x := extName[1..];
    var mime := MimeTypeFromExtension(extName);
    assert mime == IMAGE_PREFIX + x;
    assert mime[..|IMAGE_PREFIX|] == IMAGE_PREFIX && mime[|IMAGE_PREFIX|..] == x;
    assert extName == "." + x;
    assert x != "jpeg";
  }

  /** ".jpeg" is the one dotted extension that does not come back: it returns as ".jpg". */
  lemma JpegComesBackAsJpg()
    ensures MimeTypeFromExtension(".jpeg") == "image/jpeg"
    ensures ExtensionFromMimeType(MimeTypeFromExtension(".jpeg")) == ".jpg"
  {
    assert StartsWith(".jpeg", ".");
    assert ".jpeg"[1..] == "jpeg";
  }

  /** Distinct dotted extensions get distinct MIME types. */
  lemma DottedMimeTypesDistinct(a: string, b: string)
    requires StartsWith(a, ".") && StartsWith(b, ".") && a != b
    ensures MimeTypeFromExtension(a) != MimeTypeFromExtension(b)
  {
    assert a == "." + a[1..] && b == "." + b[1..];
    assert a[1..] != b[1..];
    assert MimeTypeFromExtension(a)[|IMAGE_PREFIX|..] == a[1..];
    assert MimeTypeFromExtension(b)[|IMAGE_PREFIX|..] == b[1..];
  }

  /** The other direction: an "image/" type other than JPEG survives the trip to an extension
      and back, and a type without the prefix comes back with it. */
  lemma MimeTypeRoundTrip(mimeType: string)
    requires mimeType != "image/jpeg"
    ensures StartsWith(mimeType, IMAGE_PREFIX) ==> MimeTypeFromExtension(ExtensionFromMimeType(mimeType)) == mimeType
    ensures !StartsWith(mimeType, IMAGE_PREFIX) ==>
      MimeTypeFromExtension(ExtensionFromMimeType(mimeType)) == IMAGE_PREFIX + mimeType
  {
    var e := ExtensionFromMimeType(mimeType);
    assert StartsWith(e, ".") && e[1..] == e[1..];
    if StartsWith(mimeType, IMAGE_PREFIX) {
      assert e[1..] == mimeType[|IMAGE_PREFIX|..];
      assert mimeType == IMAGE_PREFIX + mimeType[|IMAGE_PREFIX|..];
    } else {
      assert e[1..] == mimeType;
    }
  }

  // ------------------------------------------------------------ buffer files

  /** The file name of buffer i: "<base>.bin" when the document has a single buffer, and
      "<base>-<i>.bin" when it has several. */
  function BufferFileName(baseName: string, bufferCount: nat, i: nat): (r: string)
    ensures |r| >= 4 && r[|r| - 4..] == ".bin"
    ensures StartsWith(r, baseName)
  {
    var r := if bufferCount > 1 then baseName + "-" + NatToString(i) + ".bin" else baseName + ".bin";
    assert r[..|baseName|] == baseName;
    r
  }

  /** Several buffers never share a file name. */
  lemma BufferFileNamesDistinct(baseName: string, bufferCount: nat, i: nat, j: nat)
    requires i < bufferCount && j < bufferCount && i != j
    ensures BufferFileName(baseName, bufferCount, i) != BufferFileName(baseName, bufferCount, j)
  {
    if BufferFileName(baseName, bufferCount, i) == BufferFileName(baseName, bufferCount, j) {
      StripAffixes(baseName + "-", NatToString(i), NatToString(j), ".bin");
      NatToStringInjective(i, j);
    }
  }
}
