/** Which attribute names daemon/metadata.c stores, transfers and keeps to itself. */
module MetadataNames {
  import opened Bytes
  import opened EaHeader

  function Ascii(s: string): (b: seq<byte>)
    ensures |b| == |s|
  {
    seq(|s|, i requires 0 <= i < |s| => (s[i] as int % 256) as byte)
  }

  /** afp_xattr_strip_user_prefix. */
  function StripUser(name: seq<byte>): seq<byte> {
    if Ascii("user.") <= name then name[5..] else name
  }

  /** metadata_name_filtered: metadata of internal macOS or Netatalk use. */
  predicate Filtered(name: seq<byte>) {
    var bare := StripUser(name);
    || Ascii("org.netatalk.Metadata") <= bare
    || bare == Ascii("com.apple.finder.copy.source")
    || bare == Ascii("com.apple.metadata:kMDItemResumableCopy")
    || Ascii("com.apple.finder.copy.checkpoint#") <= bare
  }

  /** transfer_name_special: what the sidecar keeps instead. */
  predicate Special(name: seq<byte>) {
    var bare := StripUser(name);
    bare == Ascii("com.apple.FinderInfo") || bare == Ascii("com.apple.ResourceFork")
  }

  /** metadata_name_valid. */
  predicate ValidName(name: seq<byte>) {
    CString(name) && 0 < |name| <= NAME_MAX && forall i :: 0 <= i < |name| ==> name[i] != 47
  }

  /** The names a transfer copies. */
  predicate Transferable(name: seq<byte>) {
    !Special(name) && !Filtered(name)
  }

  // ----- which names those are

  /** A prefix of "user." makes no difference. */
  lemma UserPrefix(name: seq<byte>)
    requires !(Ascii("user.") <= name)
    ensures Transferable(Ascii("user.") + name) <==> Transferable(name)
  {
    assert (Ascii("user.") + name)[5..] == name;
  }

  /** A name of nobody's internal use is copied. */
  lemma OrdinaryName(name: seq<byte>)
    requires !(Ascii("com.apple.") <= StripUser(name)) && !(Ascii("org.netatalk.") <= StripUser(name))
    ensures Transferable(name)
  {
    var bare := StripUser(name);
    Within("com.apple.", "com.apple.finder.copy.source");
    Within("com.apple.", "com.apple.metadata:kMDItemResumableCopy");
    Within("com.apple.", "com.apple.finder.copy.checkpoint#");
    Within("com.apple.", "com.apple.FinderInfo");
    Within("com.apple.", "com.apple.ResourceFork");
    Within("org.netatalk.", "org.netatalk.Metadata");
  }

  lemma Within(s: string, t: string)
    requires s <= t
    ensures Ascii(s) <= Ascii(t)
  {
    assert forall i :: 0 <= i < |s| ==> s[i] == t[i];
  }

  /** What the sidecar keeps is not, and neither is anything Netatalk keeps to itself. */
  lemma ReservedNames(more: seq<byte>)
    ensures !Transferable(Ascii("com.apple.FinderInfo")) && !Transferable(Ascii("com.apple.ResourceFork"))
    ensures !Transferable(Ascii("org.netatalk.Metadata") + more) && Filtered(Ascii("org.netatalk.Metadata") + more)
    ensures !Transferable(Ascii("com.apple.finder.copy.checkpoint#") + more)
    ensures !Filtered(Ascii("com.apple.FinderInfo"))
  {
    Unprefixed("com.apple.FinderInfo", []);
    Unprefixed("com.apple.ResourceFork", []);
    Unprefixed("org.netatalk.Metadata", more);
    Unprefixed("com.apple.finder.copy.checkpoint#", more);
    FinderInfoKept();
  }

  lemma Unprefixed(s: string, more: seq<byte>)
    requires s != "" && s[0] != 'u' && s[0] as int < 256
    ensures StripUser(Ascii(s) + more) == Ascii(s) + more && Ascii(s) + [] == Ascii(s)
  {
    var n := Ascii(s) + more;
    assert n[0] == Ascii(s)[0] != Ascii("user.")[0];
  }

  lemma FinderInfoKept()
    ensures !Filtered(Ascii("com.apple.FinderInfo"))
  {
    Unprefixed("com.apple.FinderInfo", []);
    var n := Ascii("com.apple.FinderInfo");
    assert n[0] != Ascii("org.netatalk.Metadata")[0];
    assert n[10] == 70 && |n| == 20;
    assert Ascii("com.apple.finder.copy.checkpoint#")[10] == 102;
  }

  /** Any name of 1 to 255 bytes may be stored that has no terminator and no slash. */
  lemma StoredNames(name: seq<byte>)
    ensures ValidName(name) <==> 1 <= |name| <= 255 && 0 !in name && 47 !in name
  {
  }
}
