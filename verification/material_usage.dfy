/** The key that groups materials by how their vertices use them: whether any vertex is
    transparent, spelled as a flag digit after a fixed label. */
module MaterialUsage {

  datatype Usage = Usage(hasTransparentVertex: bool)

  const KEY_LABEL: string := "hasTransparentVertex: "

  /** The label followed by one digit: '1' for a usage with a transparent vertex, '0' without. */
  function UsageKey(usage: Usage): (r: string)
    ensures |r| == |KEY_LABEL| + 1 && r[..|KEY_LABEL|] == KEY_LABEL
    ensures r[|KEY_LABEL|] == '0' || r[|KEY_LABEL|] == '1'
    ensures r[|KEY_LABEL|] == '1' <==> usage.hasTransparentVertex
  {
    KEY_LABEL + (if usage.hasTransparentVertex then "1" else "0")
  }

  /** Different usages never share a key, so the key can stand for the usage. */
  lemma UsageKeyInjective(a: Usage, b: Usage)
    requires UsageKey(a) == UsageKey(b)
    ensures a == b
  {
    assert UsageKey(a)[|KEY_LABEL|] == UsageKey(b)[|KEY_LABEL|];
  }

  /** The usage read back from a key. */
  function UsageOfKey(key: string): (r: Usage)
    requires |key| == |KEY_LABEL| + 1
    ensures r.hasTransparentVertex <==> key[|KEY_LABEL|] == '1'
  {
    Usage(key[|KEY_LABEL|] == '1')
  }

  lemma UsageKeyRoundTrip(usage: Usage)
    ensures UsageOfKey(UsageKey(usage)) == usage
  {
  }
}
