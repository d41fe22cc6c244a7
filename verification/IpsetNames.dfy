/** The set names the firewall daemon runs with (__is_valid_ipset_name and config_validate in
    firewall-daemon/iptracking-firewalld.c). */
module IpsetNames {
  import opened Options

  const SUFFIX := "_update"
  const LONGEST := 256

  predicate IsAlnum(c: char) {
    '0' <= c <= '9' || 'a' <= c <= 'z' || 'A' <= c <= 'Z'
  }

  /** Only digits, letters and underscores, by their ASCII codes. */
  predicate NameChars(s: string) {
    forall i :: 0 <= i < |s| ==>
      var code := s[i] as int;
      48 <= code <= 57 || 65 <= code <= 90 || 97 <= code <= 122 || code == 95
  }

  /** __is_valid_ipset_name: the scan gives up after 257 characters, which is already too many. */
  method IsValidName(s: string) returns (ok: bool)
    ensures ok <==> 0 < |s| <= 256 && NameChars(s)
  {
    var l := 0;
    while l < |s| && l <= LONGEST
      invariant 0 <= l <= |s| && l <= LONGEST + 1
      invariant NameChars(s[..l])
    {
      if !IsAlnum(s[l]) && s[l] != '_' {
        return false;
      }
      assert s[..l + 1] == s[..l] + [s[l]];
      l := l + 1;
    }
    if l <= LONGEST { assert s[..l] == s; }
    ok := l > 0 && l <= LONGEST;
  }

  /** The part of config_validate about names: the production and rebuild names the daemon goes on with,
      or None when the configuration is refused.  `prodSet` and `rebuildSet` say whether the name was
      configured or is the default. */
  method ValidateNames(prod: string, prodSet: bool, rebuild: string, rebuildSet: bool)
      returns (names: Option<(string, string)>)
    ensures names.Some? <==>
              0 < |prod| <= 256 && NameChars(prod) && 0 < |rebuild| <= 256 && NameChars(rebuild) && rebuild != prod
    ensures names.Some? ==> names.value.0 == prod && names.value.1 != prod
    ensures names.Some? && (rebuildSet || !prodSet) ==> names.value.1 == rebuild
    ensures names.Some? && prodSet && !rebuildSet ==> names.value.1 == prod + "_update"
  {
    var ok := IsValidName(prod);
    if !ok { return None; }
    ok := IsValidName(rebuild);
    if !ok { return None; }
    if rebuild == prod { return None; }
    NamesDiffer(prod, prodSet, rebuild, rebuildSet);
    if prodSet && !rebuildSet {
      names := Some((prod, prod + SUFFIX));
    } else {
      names := Some((prod, rebuild));
    }
  }

  function RebuildName(prod: string, prodSet: bool, rebuild: string, rebuildSet: bool): string {
    if prodSet && !rebuildSet then prod + SUFFIX else rebuild
  }

  /** Every accepted configuration rebuilds under a name other than the production name, which is what the
      safety of the rebuild rests on. */
  lemma NamesDiffer(prod: string, prodSet: bool, rebuild: string, rebuildSet: bool)
    requires rebuild != prod
    ensures RebuildName(prod, prodSet, rebuild, rebuildSet) != prod
    ensures rebuildSet || !prodSet ==> RebuildName(prod, prodSet, rebuild, rebuildSet) == rebuild
    ensures prodSet && !rebuildSet ==> RebuildName(prod, prodSet, rebuild, rebuildSet) == prod + "_update"
  {
    if prodSet && !rebuildSet {
      assert |prod + SUFFIX| > |prod|;
    }
  }

  /** The derived rebuild name is not checked again; it is itself a valid name exactly when the production
      name leaves room for the suffix. */
  lemma DerivedNameValidIff(prod: string)
    requires 0 < |prod| <= LONGEST && NameChars(prod)
    ensures 0 < |prod + SUFFIX| <= LONGEST && NameChars(prod + SUFFIX) <==> |prod| <= 249
  {
    assert |SUFFIX| == 7 && NameChars(SUFFIX);
  }
}
