/** Payload paths and package manifests, rule by rule. */
module ManifestRules {
  import opened Prelude
  import opened Paths
  import opened Package
  import opened Inventory
  import opened TextRules

  // src/artifact/types.rs, `validate_path` and `validate_manifest`, by literal texts
  // and numbers. A component is what stands between slashes.

  /** `part` stands between two slashes of the path, or at an end of it. */
  predicate ComponentAt(p: bytes, i: nat, j: nat) {
    && i <= j <= |p| && (i == 0 || p[i - 1] == 0x2F) && (j == |p| || p[j] == 0x2F)
    && forall k :: i <= k < j ==> p[k] != 0x2F
  }

  ghost predicate HasComponent(p: bytes, part: bytes) {
    exists i: nat, j: nat :: ComponentAt(p, i, j) && p[i..j] == part
  }

  const FORBIDDEN_NAMES: seq<string> := [
    ".git", "node_modules", "secret", "secrets", "key", "keys", "db", "data", "wal", "credentials", "passwords"]
  const FORBIDDEN_ENDS: seq<string> := [".key", ".pem", ".p12", ".pfx", ".jks", ".db", ".wal", ".env"]
  const ALLOWED_ROOTS: seq<string> := ["bin", "engine", "runtime", "deploy", "schemas", "docs", "licenses"]

  /** The characters of a path, and its ends. */
  predicate PathText(p: bytes) {
    && 1 <= |p| <= 255 && (forall b <- p :: b != 0x5C && b != 0x3A && b != 0x00) && !HasControl(p)
    && p[0] != 0x2F && p[|p| - 1] != 0x2F
  }

  /** The components of a path: none empty or a dot name, and a short last one. */
  ghost predicate PathComponents(p: bytes) {
    && 0x2F in p && !HasComponent(p, []) && !HasComponent(p, Ascii(".")) && !HasComponent(p, Ascii(".."))
    && exists i: nat :: ComponentAt(p, i, |p|) && |p| - i <= 100
  }

  /** Where a path may lie. */
  ghost predicate PathPlace(p: bytes) {
    exists k :: 0 <= k < |ALLOWED_ROOTS|
      && (var root := Ascii(ALLOWED_ROOTS[k]);
          && HasPrefix(p, root) && |root| < |p| && p[|root|] == 0x2F
          && (k == 0 ==> p == Ascii("bin/bxdl")) && (k == 1 ==> p == Ascii("engine/nigo-node.jar")))
  }

  predicate EndsIn(p: bytes, end: bytes) {
    exists k :: 0 <= k <= |p| && p[k..] == end
  }

  lemma EndsInIs(p: bytes, end: bytes)
    ensures EndsIn(p, end) <==> HasSuffix(p, end)
  {
    if HasSuffix(p, end) {
      assert p[|p| - |end|..] == end;
    }
  }

  /** No component and no ending that points to secrets, databases or development. */
  ghost predicate PathHarmless(p: bytes, lower: bytes -> bytes) {
    && (forall part: bytes, k :: 0 <= k < |FORBIDDEN_NAMES| && HasComponent(p, part) ==>
          lower(part) != Ascii(FORBIDDEN_NAMES[k]))
    && (forall k :: 0 <= k < |FORBIDDEN_ENDS| ==> !EndsIn(lower(p), Ascii(FORBIDDEN_ENDS[k])))
  }

  lemma FirstComponent(p: bytes, j: nat)
    ensures ComponentAt(p, 0, j) <==> j == Find(p, SLASH)
  {
    if ComponentAt(p, 0, j) {
      FindIs(p, SLASH, j);
    }
  }

  /** Behind a slash, components are those of the text that follows it. */
  lemma ComponentBehind(p: bytes, k: nat, i: nat, j: nat)
    requires k < |p| && p[k] == 0x2F
    ensures ComponentAt(p, k + 1 + i, k + 1 + j) <==> ComponentAt(p[k + 1..], i, j)
    ensures i <= j && k + 1 + j <= |p| ==> p[k + 1 + i..k + 1 + j] == p[k + 1..][i..j]
  {
    var q := p[k + 1..];
    assert forall m :: 0 <= m < |q| ==> q[m] == p[k + 1 + m];
    if ComponentAt(q, i, j) {
      forall m | k + 1 + i <= m < k + 1 + j ensures p[m] != 0x2F {
        assert q[m - k - 1] == p[m];
      }
    }
  }

  /** Every component but the first starts behind the first slash. */
  lemma NotFirst(p: bytes, i: nat, j: nat)
    requires ComponentAt(p, i, j) && i > 0
    ensures Find(p, SLASH) < i && Find(p, SLASH) < |p| && p[Find(p, SLASH)] == 0x2F
  {
    assert p[i - 1] == SLASH;
  }

  lemma HasIt(p: bytes, i: nat, j: nat)
    requires ComponentAt(p, i, j)
    ensures i <= j <= |p| && HasComponent(p, p[i..j])
  {
  }

  lemma WhichIt(p: bytes, part: bytes) returns (i: nat, j: nat)
    requires HasComponent(p, part)
    ensures ComponentAt(p, i, j) && i <= j <= |p| && p[i..j] == part
  {
    i, j :| ComponentAt(p, i, j) && p[i..j] == part;
  }

  lemma HasFirst(p: bytes, k: nat)
    requires k == Find(p, SLASH)
    ensures HasComponent(p, p[..k])
  {
    FirstComponent(p, k);
    assert p[0..k] == p[..k];
    HasIt(p, 0, k);
  }

  lemma HasBehind(p: bytes, k: nat, part: bytes)
    requires k < |p| && p[k] == 0x2F && HasComponent(p[k + 1..], part)
    ensures HasComponent(p, part)
  {
    hide ComponentAt, HasComponent;
    var i, j := WhichIt(p[k + 1..], part);
    ComponentBehind(p, k, i, j);
    HasIt(p, k + 1 + i, k + 1 + j);
  }

  lemma BehindHas(p: bytes, k: nat, i: nat, j: nat)
    requires k < |p| && p[k] == 0x2F && ComponentAt(p, k + 1 + i, k + 1 + j) && i <= j && k + 1 + j <= |p|
    ensures HasComponent(p[k + 1..], p[k + 1 + i..k + 1 + j])
  {
    hide ComponentAt, HasComponent;
    ComponentBehind(p, k, i, j);
    HasIt(p[k + 1..], i, j);
  }

  lemma FirstOrBehind(p: bytes, k: nat, part: bytes)
    requires k == Find(p, SLASH) && HasComponent(p, part)
    ensures part == p[..k] || (k < |p| && HasComponent(p[k + 1..], part))
  {
    hide ComponentAt, HasComponent, Find;
    var i, j := WhichIt(p, part);
    if i == 0 {
      FirstComponent(p, j);
      assert p[0..k] == p[..k];
    } else {
      NotFirst(p, i, j);
      BehindHas(p, k, i - k - 1, j - k - 1);
    }
  }

  /** Splitting at slashes gives exactly the components. */
  lemma {:induction false} ComponentsAre(p: bytes, part: bytes)
    ensures part in Split(p) <==> HasComponent(p, part)
    decreases |p|
  {
    hide HasComponent;
    var k := Find(p, SLASH);
    HasFirst(p, k);
    if HasComponent(p, part) {
      FirstOrBehind(p, k, part);
    }
    if k < |p| {
      ComponentsAre(p[k + 1..], part);
      if HasComponent(p[k + 1..], part) {
        HasBehind(p, k, part);
      }
    } else {
      assert p[..k] == p;
    }
  }

  lemma {:induction false} LastComponent(p: bytes) returns (i: nat)
    ensures i <= |p| && ComponentAt(p, i, |p|) && Split(p)[|Split(p)| - 1] == p[i..]
    decreases |p|
  {
    var k := Find(p, SLASH);
    if k == |p| {
      i := 0;
      FirstComponent(p, |p|);
    } else {
      hide ComponentAt, Find;
      var m := LastComponent(p[k + 1..]);
      i := k + 1 + m;
      ComponentBehind(p, k, m, |p| - k - 1);
      assert p[k + 1..][m..] == p[i..];
    }
  }

  /** There is one last component. */
  lemma OneLast(p: bytes, i: nat, j: nat)
    requires ComponentAt(p, i, |p|) && ComponentAt(p, j, |p|)
    ensures i == j
  {
  }

  lemma TextIs(p: bytes)
    ensures !BadText(p) <==> PathText(p)
  {
    hide HasControl;
  }

  lemma PartsAre(p: bytes)
    ensures !BadParts(Split(p)) <==> PathComponents(p)
  {
    var parts := Split(p);
    var i := LastComponent(p);
    SplitTwice(p);
    hide Split, ComponentAt, Ascii;
    forall part ensures part in parts <==> HasComponent(p, part) {
      ComponentsAre(p, part);
    }
    if PathComponents(p) {
      var j: nat :| ComponentAt(p, j, |p|) && |p| - j <= 100;
      OneLast(p, i, j);
    }
    hide HasComponent;
  }

  lemma SplitTwice(p: bytes)
    ensures |Split(p)| >= 2 <==> 0x2F in p
    ensures Split(p)[0] == p[..Find(p, SLASH)]
  {
    var k := Find(p, SLASH);
    if k < |p| {
      assert p[k] == 0x2F;
    }
  }

  lemma RootIs(p: bytes, root: bytes)
    requires 0x2F in p && SLASH !in root
    ensures HasPrefix(p, root) && |root| < |p| && p[|root|] == 0x2F <==> p[..Find(p, SLASH)] == root
  {
    if HasPrefix(p, root) && |root| < |p| && p[|root|] == 0x2F {
      assert forall i :: 0 <= i < |root| ==> p[i] == root[i];
      FindIs(p, SLASH, |root|);
    }
  }

  lemma RootsPlain(k: nat)
    requires k < |ALLOWED_ROOTS|
    ensures SLASH !in Ascii(ALLOWED_ROOTS[k]) && ROOTS[k] == Ascii(ALLOWED_ROOTS[k])
  {
    PlainRoot("bin");
    PlainRoot("engine");
    PlainRoot("runtime");
    PlainRoot("deploy");
    PlainRoot("schemas");
    PlainRoot("docs");
    PlainRoot("licenses");
    hide Ascii;
  }

  lemma PlainRoot(text: string)
    requires forall i :: 0 <= i < |text| ==> 'a' <= text[i] <= 'z'
    ensures SLASH !in Ascii(text)
  {
  }

  lemma RootsApart()
    ensures forall k, m :: 0 <= k < m < |ALLOWED_ROOTS| ==> Ascii(ALLOWED_ROOTS[k]) != Ascii(ALLOWED_ROOTS[m])
  {
    assert |Ascii("bin")| == 3 && |Ascii("engine")| == 6 && |Ascii("runtime")| == 7 && |Ascii("deploy")| == 6;
    assert |Ascii("schemas")| == 7 && |Ascii("docs")| == 4 && |Ascii("licenses")| == 8;
    assert Ascii("engine")[0] != Ascii("deploy")[0] && Ascii("runtime")[0] != Ascii("schemas")[0];
    hide Ascii;
  }

  lemma PlaceIs(p: bytes)
    requires 0x2F in p
    ensures !Misplaced(p, p[..Find(p, SLASH)]) <==> PathPlace(p)
  {
    RootsApart();
    var root := p[..Find(p, SLASH)];
    assert |ROOTS| == |ALLOWED_ROOTS| == 7;
    forall k: nat | k < 7
      ensures ROOTS[k] == Ascii(ALLOWED_ROOTS[k])
      ensures var r := Ascii(ALLOWED_ROOTS[k]); HasPrefix(p, r) && |r| < |p| && p[|r|] == 0x2F <==> root == r
    {
      RootsPlain(k);
      RootIs(p, Ascii(ALLOWED_ROOTS[k]));
    }
    assert ALLOWED_ROOTS[0] == "bin" && ALLOWED_ROOTS[1] == "engine";
    hide Ascii, ROOTS, ALLOWED_ROOTS, HasPrefix;
  }

  lemma NamesAre()
    ensures |FORBIDDEN| == |FORBIDDEN_NAMES| && |SUFFIXES| == |FORBIDDEN_ENDS|
    ensures forall k :: 0 <= k < |FORBIDDEN_NAMES| ==> FORBIDDEN[k] == Ascii(FORBIDDEN_NAMES[k])
    ensures forall k :: 0 <= k < |FORBIDDEN_ENDS| ==> SUFFIXES[k] == Ascii(FORBIDDEN_ENDS[k])
  {
    hide Ascii;
  }

  lemma HarmlessIs(p: bytes, lower: bytes -> bytes)
    ensures !Forbidden(p, Split(p), lower) <==> PathHarmless(p, lower)
  {
    NamesAre();
    hide Ascii, FORBIDDEN, SUFFIXES, FORBIDDEN_NAMES, FORBIDDEN_ENDS, HasSuffix, EndsIn, HasComponent, Split;
    forall end ensures EndsIn(lower(p), end) <==> HasSuffix(lower(p), end) {
      EndsInIs(lower(p), end);
    }
    forall part ensures part in Split(p) <==> HasComponent(p, part) {
      ComponentsAre(p, part);
    }
    assert forall part :: part in FORBIDDEN <==> exists k :: 0 <= k < |FORBIDDEN| && FORBIDDEN[k] == part;
    assert forall end :: end in SUFFIXES <==> exists k :: 0 <= k < |SUFFIXES| && SUFFIXES[k] == end;
  }

  /** A path is valid exactly when it meets all rules; a path that only points to
      something forbidden gets its own error. */
  lemma PathExact(p: bytes, lower: bytes -> bytes)
    ensures ValidatePath(p, lower)
         == if !PathText(p) || !PathComponents(p) || !PathPlace(p) then Err(PathInvalid)
            else if !PathHarmless(p, lower) then Err(PathForbidden)
            else Ok(())
  {
    TextIs(p);
    PartsAre(p);
    HarmlessIs(p, lower);
    SplitTwice(p);
    if 0x2F in p {
      PlaceIs(p);
    }
    hide PathText, PathPlace, PathHarmless, BadText, BadParts, Misplaced, Forbidden, Split;
  }

  // ------------------------------------------------------------- manifests

  predicate LabelText(s: bytes) {
    1 <= |s| <= 128 && Trimmed(s) && !HasControl(s)
  }

  predicate ProductFields(m: Manifest) {
    && m.schemaVersion == 1 && m.kind == Ascii("bxdl-package") && m.productName == Ascii("BXDL")
    && m.channel == Ascii("development") && LabelText(m.productVersion)
    && (HexText(m.productRevision, 40) || m.productRevision == Ascii("development"))
  }

  predicate PlatformFields(p: Platform) {
    && p.javaMajor == 21 && p.backend == Ascii("rocksdb")
    && (if p.os == Ascii("linux")
        then p.arch == Ascii("amd64") && p.libc == Ascii("glibc") && p.minGlibc == Ascii("2.34")
        else p.os == Ascii("darwin") && p.arch == Ascii("arm64") && p.libc == Ascii("none")
             && p.minGlibc == Ascii("none"))
  }

  predicate SupplierFields(m: Manifest) {
    && HexText(m.engineRevision, 40) && HexText(m.jarSha256, 64) && m.contractStatus == Ascii("proposed")
    && LabelText(m.contractRevision) && LabelText(m.runtimeVendor) && LabelText(m.runtimeVersion)
    && HexText(m.javaSha256, 64)
  }

  ghost predicate PathAllowed(p: bytes, lower: bytes -> bytes) {
    PathText(p) && PathComponents(p) && PathPlace(p) && PathHarmless(p, lower)
  }

  ghost predicate FileFields(f: FileEntry, lower: bytes -> bytes) {
    PathAllowed(f.path, lower) && f.size <= 536_870_912 && HexText(f.sha256, 64) && (f.mode == 420 || f.mode == 493)
  }

  ghost predicate Holds(m: Manifest, name: string) {
    exists f <- m.files :: f.path == Ascii(name) && f.size > 0
  }

  ghost predicate PackageFiles(m: Manifest) {
    && Holds(m, "bin/bxdl") && Holds(m, "engine/nigo-node.jar") && Holds(m, "runtime/bin/java")
    && Holds(m, "licenses/THIRD_PARTY_NOTICES") && Holds(m, "licenses/SBOM.json")
  }

  /** The launchers are executable and the engine and Java are the ones named. */
  ghost predicate PackageIdentity(m: Manifest) {
    forall f <- m.files ::
      && (f.path == Ascii("bin/bxdl") ==> f.mode == 493)
      && (f.path == Ascii("runtime/bin/java") ==> f.mode == 493 && f.sha256 == m.javaSha256)
      && (f.path == Ascii("engine/nigo-node.jar") ==> f.sha256 == m.jarSha256)
  }

  /** No two files share a path, and no file is a directory of another. */
  ghost predicate FilesApart(files: seq<FileEntry>) {
    forall i, j :: 0 <= i < |files| && 0 <= j < |files| && i != j ==>
      files[i].path != files[j].path && !Below(files[j].path, files[i].path)
  }

  predicate Below(p: bytes, dir: bytes) {
    |dir| < |p| && p[..|dir|] == dir && p[|dir|] == 0x2F
  }

  ghost predicate Admissible(m: Manifest, lower: bytes -> bytes) {
    && ProductFields(m) && PlatformFields(m.platform) && SupplierFields(m)
    && 1 <= |m.files| <= 10_000 && TotalSize(m.files) <= 4_294_967_296
    && (forall f <- m.files :: FileFields(f, lower))
    && FilesApart(m.files) && PackageFiles(m) && PackageIdentity(m)
  }

  lemma AncestorIsAbove(p: bytes, dir: bytes)
    ensures dir in Ancestors(p) <==> Below(p, dir)
  {
    if dir in Ancestors(p) {
      var i :| 0 <= i < |p| && p[i] == SLASH && p[..i] == dir;
      assert |dir| == i;
    }
  }

  lemma ApartIs(files: seq<FileEntry>)
    ensures DistinctPaths(files) && NoConflict(files) <==> FilesApart(files)
  {
    forall f <- files, g <- files ensures f.path in Ancestors(g.path) <==> Below(g.path, f.path) {
      AncestorIsAbove(g.path, f.path);
    }
    if FilesApart(files) {
      forall f <- files, g <- files ensures f.path !in Ancestors(g.path) {
        var i :| 0 <= i < |files| && files[i] == f;
        var j :| 0 <= j < |files| && files[j] == g;
      }
    }
    hide Below, Ancestors;
  }

  lemma FileIs(f: FileEntry, lower: bytes -> bytes)
    ensures EntryOk(f, lower) <==> FileFields(f, lower)
  {
    PathExact(f.path, lower);
    HashIs(f.sha256, 64);
    hide IsHash, HexText, PathText, PathComponents, PathPlace, PathHarmless, ValidatePath;
  }

  lemma FilesHeld(m: Manifest)
    ensures AllPresent(m.files) <==> PackageFiles(m)
  {
    RequiredNames();
    var names := ["bin/bxdl", "engine/nigo-node.jar", "runtime/bin/java", "licenses/THIRD_PARTY_NOTICES",
                  "licenses/SBOM.json"];
    forall k | 0 <= k < 5 ensures Present(m.files, REQUIRED[k]) <==> Holds(m, names[k]) {
      assert REQUIRED[k] == Ascii(names[k]);
    }
    hide Ascii, REQUIRED, Present, Holds;
    assert |REQUIRED| == 5 && names[0] == "bin/bxdl" && names[1] == "engine/nigo-node.jar"
      && names[2] == "runtime/bin/java" && names[3] == "licenses/THIRD_PARTY_NOTICES"
      && names[4] == "licenses/SBOM.json";
    assert PackageFiles(m) <==> forall k :: 0 <= k < 5 ==> Holds(m, names[k]);
  }

  lemma RequiredNames()
    ensures REQUIRED == [Ascii("bin/bxdl"), Ascii("engine/nigo-node.jar"), Ascii("runtime/bin/java"),
                         Ascii("licenses/THIRD_PARTY_NOTICES"), Ascii("licenses/SBOM.json")]
  {
    hide Ascii;
  }

  lemma IdentityIs(m: Manifest)
    ensures LaunchersOk(m.files) && IdentitiesMatch(m) <==> PackageIdentity(m)
  {
    hide Ascii;
  }

  lemma FieldsAre(m: Manifest)
    ensures IdentityOk(m) <==> ProductFields(m)
    ensures PlatformOk(m.platform) <==> PlatformFields(m.platform)
    ensures SuppliersOk(m) <==> SupplierFields(m)
  {
    assert |Ascii("linux")| != |Ascii("darwin")|;
    HashIs(m.productRevision, 40);
    HashIs(m.engineRevision, 40);
    HashIs(m.jarSha256, 64);
    HashIs(m.javaSha256, 64);
    hide IsHash, HexText;
    hide Ascii, Trimmed, HasControl;
  }

  lemma InventoryIs(m: Manifest, lower: bytes -> bytes)
    ensures ListOk(m.files, EntryCheck(lower)) && NoConflict(m.files) <==>
              (forall f <- m.files :: FileFields(f, lower)) && FilesApart(m.files)
              && TotalSize(m.files) <= 4_294_967_296
  {
    ApartIs(m.files);
    forall f <- m.files ensures EntryCheck(lower)(f) <==> FileFields(f, lower) {
      FileIs(f, lower);
    }
    hide EntryCheck, FileFields, DistinctPaths, NoConflict, FilesApart, TotalSize;
    assert (forall f <- m.files :: FileFields(f, lower)) <==>
      (forall i :: 0 <= i < |m.files| ==> EntryCheck(lower)(m.files[i]));
  }

  /** The rules of a complete manifest, in full. */
  lemma ManifestExact(m: Manifest, lower: bytes -> bytes)
    ensures ManifestOk(m, lower) <==> Admissible(m, lower)
    ensures Verdict(m, true, lower).Ok? <==> Admissible(m, lower)
  {
    FieldsAre(m);
    InventoryIs(m, lower);
    FilesHeld(m);
    IdentityIs(m);
    VerdictExact(m, lower);
    hide IdentityOk, ProductFields, PlatformOk, PlatformFields, SuppliersOk, SupplierFields, ListOk,
      NoConflict, FilesApart, AllPresent, PackageFiles, LaunchersOk, IdentitiesMatch, PackageIdentity,
      EntryCheck, FileFields, Verdict, TotalSize;
  }

  /** A build specification may leave the inventory out, and nothing else. */
  lemma SpecificationExact(m: Manifest, lower: bytes -> bytes)
    requires m.files == []
    ensures Verdict(m, false, lower)
         == if !ProductFields(m) then Err(ManifestInvalid)
            else if !PlatformFields(m.platform) then Err(PlatformUnsupported)
            else if !SupplierFields(m) then Err(ManifestInvalid)
            else Ok(())
  {
    FieldsAre(m);
    hide IdentityOk, ProductFields, PlatformOk, PlatformFields, SuppliersOk, SupplierFields;
  }
}
