/** Where a target is cached: `CacheDir.cachepath`, and the temporary name used while pushing. */
module CachePaths {
  import opened CacheConfig

  function UpperChar(c: char): char {
    if 'a' <= c <= 'z' then (c as int - 32) as char else c
  }

  function Upper(s: string): (u: string)
    ensures |u| == |s|
  {
    if s == "" then "" else [UpperChar(s[0])] + Upper(s[1..])
  }

  /** `os.path.join` of two components on a POSIX system. */
  function Join(a: string, b: string): string {
    if b != "" && b[0] == '/' then b
    else if a == "" || a[|a| - 1] == '/' then a + b
    else a + "/" + b
  }

  /** Python's `s[:n]`. */
  function Prefix(s: string, n: nat): string {
    if n <= |s| then s[..n] else s
  }

  datatype Location = Location(dir: string, file: string)

  /** The cache directory and file for the target with build signature `sig`. */
  function CachePath(root: string, c: Config, sig: string): Location {
    var dir := Join(root, Upper(Prefix(sig, c.prefixLen)));
    Location(dir, Join(dir, sig))
  }

  /** The name a process with the given uuid copies to before it renames. */
  function TempPath(file: string, uuid: string): string {
    file + ".tmp" + uuid
  }

  /** Signatures and uuids are hexadecimal digests. */
  predicate Hex(s: string) {
    s != "" && forall i | 0 <= i < |s| :: '0' <= s[i] <= '9' || 'a' <= s[i] <= 'f'
  }

  /** Text after the last separator is determined by the whole. */
  lemma LastSeparator(d1: string, l1: string, d2: string, l2: string, c: char)
    requires d1 + [c] + l1 == d2 + [c] + l2
    requires c !in l1 && c !in l2
    ensures d1 == d2 && l1 == l2
  {
    var s := d1 + [c] + l1;
    assert s[|d1|] == c && s[|d2|] == c;
    assert |d1| == |d2|;
    assert d1 == s[..|d1|] && l1 == s[|d1| + 1..];
  }

  /** The cache file is some directory, a slash, and the signature. */
  lemma CachePathShape(root: string, c: Config, sig: string) returns (d: string)
    requires root != "" && Hex(sig)
    ensures CachePath(root, c, sig).file == d + ['/'] + sig && '/' !in sig
  {
    var dir := CachePath(root, c, sig).dir;
    var sub := Upper(Prefix(sig, c.prefixLen));
    UpperHex(Prefix(sig, c.prefixLen));
    assert dir != "";
    if dir[|dir| - 1] == '/' {
      d := dir[..|dir| - 1];
      assert dir == d + ['/'];
    } else {
      d := dir;
    }
  }

  lemma UpperHex(s: string)
    requires s == "" || Hex(s)
    ensures Upper(s) != "" ==> Upper(s)[0] != '/'
  {}

  /** Two signatures never share a cache file, even between processes that read different
      configurations: a file found under a signature can only have been pushed under it. */
  lemma CachePathInjective(root: string, c1: Config, c2: Config, sig1: string, sig2: string)
    requires root != "" && Hex(sig1) && Hex(sig2)
    requires CachePath(root, c1, sig1).file == CachePath(root, c2, sig2).file
    ensures sig1 == sig2
  {
    var d1 := CachePathShape(root, c1, sig1);
    var d2 := CachePathShape(root, c2, sig2);
    LastSeparator(d1, sig1, d2, sig2, '/');
  }

  /** A file being copied never has the name of a cache entry, and two different pushes never
      copy to the same name. */
  lemma TempPathsDistinct(root: string, c1: Config, c2: Config, sig1: string, sig2: string, u1: string, u2: string)
    requires root != "" && Hex(sig1) && Hex(sig2) && Hex(u1) && Hex(u2)
    ensures TempPath(CachePath(root, c1, sig1).file, u1) != CachePath(root, c2, sig2).file
    ensures TempPath(CachePath(root, c1, sig1).file, u1) == TempPath(CachePath(root, c2, sig2).file, u2) ==>
              CachePath(root, c1, sig1).file == CachePath(root, c2, sig2).file && u1 == u2
  {
    var d1 := CachePathShape(root, c1, sig1);
    var d2 := CachePathShape(root, c2, sig2);
    var f1, f2 := CachePath(root, c1, sig1).file, CachePath(root, c2, sig2).file;
    assert TempPath(f1, u1) == d1 + ['/'] + (sig1 + ".tmp" + u1);
    var leaf := sig1 + ".tmp" + u1;
    assert leaf[|sig1|] == '.';
    if TempPath(f1, u1) == f2 {
      LastSeparator(d1, leaf, d2, sig2, '/');
    }
    if TempPath(f1, u1) == TempPath(f2, u2) {
      assert TempPath(f1, u1) == (f1 + ".tm") + ['p'] + u1;
      assert TempPath(f2, u2) == (f2 + ".tm") + ['p'] + u2;
      LastSeparator(f1 + ".tm", u1, f2 + ".tm", u2, 'p');
      assert f1 == (f1 + ".tm")[..|f1|] && f2 == (f2 + ".tm")[..|f2|];
    }
  }

  /** `sig` is in the subdirectory named by its first characters in upper case, if there are any. */
  predicate InSubdirectory(sub: string, sig: string, n: nat) {
    && |sub| == Min(n, |sig|)
    && forall i | 0 <= i < |sub| :: sub[i] == if 'a' <= sig[i] <= 'f' then (sig[i] as int - 'a' as int + 'A' as int) as char else sig[i]
  }

  /** Exactly where the file of a signature is. */
  lemma CachePathExactly(root: string, c: Config, sig: string, file: string)
    requires root != "" && Hex(sig)
    ensures file == CachePath(root, c, sig).file <==>
            exists sub :: InSubdirectory(sub, sig, c.prefixLen) &&
              file == (if root[|root| - 1] == '/' then root else root + "/") + (if sub == "" then "" else sub + "/") + sig
  {
    var p := Prefix(sig, c.prefixLen);
    var sub := Upper(p);
    UpperHex(p);
    forall i | 0 <= i < |p| ensures sub[i] == UpperChar(sig[i]) { UpperAt(p, i); }
    assert InSubdirectory(sub, sig, c.prefixLen);
    if sub != "" {
      assert Join(root, sub)[|Join(root, sub)| - 1] == sub[|sub| - 1] != '/';
    } else {
      assert Join(root, sub) == root + (if root[|root| - 1] == '/' then "" else "/");
    }
    forall other | InSubdirectory(other, sig, c.prefixLen) ensures other == sub {}
  }

  /** How long the path of a cache file is: the directory of the prefix, if there is one, adds itself and
      a separator. */
  lemma CachePathLength(root: string, c: Config, sig: string)
    requires root != "" && Hex(sig)
    ensures var sub := |Prefix(sig, c.prefixLen)|;
            |CachePath(root, c, sig).file| ==
            |root| + (if root[|root| - 1] == '/' then 0 else 1) + (if sub == 0 then 0 else sub + 1) + |sig|
  {
    var p := Prefix(sig, c.prefixLen);
    var sub := Upper(p);
    UpperHex(p);
    var dir := Join(root, sub);
    if sub != "" {
      assert dir[|dir| - 1] == sub[|sub| - 1];
      UpperAt(p, |p| - 1);
    }
  }

  lemma {:induction false} UpperAt(s: string, i: nat)
    requires i < |s|
    ensures Upper(s)[i] == UpperChar(s[i])
  {
    if i > 0 { UpperAt(s[1..], i - 1); }
  }

  function Min(a: nat, b: nat): nat { if a < b then a else b }

  /** Processes that read different configurations look for a target in the same place exactly when
      their prefix lengths are the same as far as the signature goes, which is why the agreement proved
      for the directory protocol matters. */
  lemma DisagreementLosesEntries(root: string, c: Config, d: Config, sig: string)
    requires root != "" && Hex(sig)
    ensures CachePath(root, c, sig).file == CachePath(root, d, sig).file <==>
            Min(c.prefixLen, |sig|) == Min(d.prefixLen, |sig|)
  {
    CachePathLength(root, c, sig);
    CachePathLength(root, d, sig);
    assert sig == sig[..|sig|];
  }
}
