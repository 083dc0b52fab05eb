/** What RepoBuilder does, as functions from the builder and filesystem
    before a call to the outcome and the builder and filesystem after it.
    The methods of Builder.RepoBuilder are proved to do exactly this; the
    lemmas here state what the source promises about it. */
module Pipeline {
  import opened Common
  import opened FileSystems
  import opened Digests
  import opened Control

  const Packages: string := "Packages"
  const PackagesGz: string := "Packages.gz"
  const ReleaseName: string := "Release"
  const ReleaseGpg: string := "Release.gpg"
  const InRelease: string := "InRelease"
  const DefaultDigest: string := "SHA256"

  /** One package of the Packages index. `control` is the ./control text
      handed to the control handler, which fills in the package's fields;
      it stays empty for an archive without control.tar.gz. */
  datatype PackageEntry = PackageEntry(size: nat, filename: string,
                                       md5sum: string, sha1: string, sha256: string, sha512: string,
                                       control: Option<Bytes>)

  /** One file listed in the Release manifest. */
  datatype ReleaseInfo = ReleaseInfo(name: string, size: nat, hashes: DefaultHashes)

  /** The library exceptions the signer may throw. */
  datatype Thrown = IOError | PGPError | SecurityError

  datatype Attempt<T> = Done(value: T) | Threw(thrown: Thrown)

  /** What the PGPSigner is built from: the keyring's bytes, the key id,
      the passphrase and the OpenPGP hash algorithm tag. */
  datatype SignKey = SignKey(keyring: Bytes, keyId: Option<string>, passphrase: Option<string>, hashTag: int)

  /** The libraries the builder calls and the model does not look into:
      message digests, the ar and gzip+tar decoders, Packages.toString() and
      Release.toString(), the platform charset writer, gzip compression,
      BufferedReader.readLine() and the PGP signer. */
  datatype Libraries = Libraries(
    digests: Provider,
    ar: Bytes -> Archive,
    tgz: Bytes -> Archive,
    packagesText: seq<PackageEntry> -> string,
    releaseText: seq<ReleaseInfo> -> string,
    encode: string -> Bytes,
    gzip: Bytes -> Bytes,
    readLine: Bytes -> Option<string>,
    openSigner: SignKey -> Option<Thrown>,
    signDetached: (SignKey, string) -> Attempt<Bytes>,
    signClear: (SignKey, string) -> Attempt<Bytes>)

  /** The message of the AptRepoException that sign() wraps a signer
      exception in. */
  function ThrownMessage(x: Thrown): string
  {
    match x
    case IOError => "IOException"
    case PGPError => "PGPException"
    case SecurityError => "GeneralSecurityException"
  }

  /** A RepoBuilder and the filesystem it works on. */
  datatype Model = Model(
    tree: Tree,
    repoDir: Path,
    sign: bool,
    passphraseFile: Option<Path>,
    keyring: Option<Path>,
    keyId: Option<string>,
    digest: Option<string>,
    debFiles: seq<Path>,
    passphrase: Option<string>,
    packagesFile: Option<Path>,
    packagesGzFile: Option<Path>,
    release: Option<seq<ReleaseInfo>>)

  /** The outcome of a call and the state after it. */
  datatype Step = Step(outcome: Outcome, state: Model)

  /** The signing fields as the constructor leaves them. */
  predicate Configured(m: Model)
  {
    if m.sign then m.keyring.Some?
    else m.keyring.None? && m.keyId.None? && m.passphrase.None? &&
         m.passphraseFile.None? && m.digest.None?
  }

  /** The two states differ at most in the listed paths of the filesystem. */
  ghost predicate TreeChangedOnly(t: Tree, t': Tree, changed: set<Path>)
  {
    forall p :: p !in changed ==> (p in t <==> p in t') && (p in t ==> t[p] == t'[p])
  }

  /** The fields the constructor fixes. */
  predicate SameSettings(m: Model, m': Model)
  {
    m'.repoDir == m.repoDir && m'.sign == m.sign && m'.passphraseFile == m.passphraseFile &&
    m'.keyring == m.keyring && m'.keyId == m.keyId && m'.digest == m.digest
  }

  // ---------------------------------------------------------------- constructor

  datatype Opened = Opened(outcome: Outcome, tree: Tree)

  /** The repository-directory check of the constructor as written: a path
      of a single name has no parent, and Files.isDirectory(null) throws. */
  function RepoDirAsWritten(t: Tree, dir: Path): Opened
  {
    if dir in t then Opened(Pass, t)
    else
      match Parent(dir)
      case None => Opened(Fail(NullPointerException), t)
      case Some(parent) =>
        if IsDirectory(t, parent) then
          if CanCreateDirectory(t, dir) then Opened(Pass, t[dir := Directory(true)])
          else Opened(Fail(Raise("creating repo directory failed: " + Show(dir))), t)
        else Opened(Fail(Raise("repDir does not exist: " + Show(dir))), t)
  }

  /** The repository-directory check as intended: an existing path is
      accepted as it is, a missing one is created when the directory it would
      live in exists (for a single name, the working directory), and
      otherwise the call fails. */
  function RepoDir(t: Tree, dir: Path): (r: Opened)
    ensures r.outcome.Pass? <==> dir in t || CanCreateDirectory(t, dir)
    ensures r.tree == if r.outcome.Pass? && dir !in t then t[dir := Directory(true)] else t
    ensures r.outcome.Fail? ==>
              r.outcome.error == Raise(if dir != [] && IsDirectory(t, Container(dir))
                                       then "creating repo directory failed: " + Show(dir)
                                       else "repDir does not exist: " + Show(dir))
  {
    if dir in t then Opened(Pass, t)
    else if dir != [] && IsDirectory(t, Container(dir)) then
      if CanCreateDirectory(t, dir) then Opened(Pass, t[dir := Directory(true)])
      else Opened(Fail(Raise("creating repo directory failed: " + Show(dir))), t)
    else Opened(Fail(Raise("repDir does not exist: " + Show(dir))), t)
  }

  /** The two agree on every existing path and every path of more than one
      name; for a missing path of at most one name the check as written
      throws NullPointerException and changes nothing. */
  lemma RepoDirAgrees(t: Tree, dir: Path)
    ensures |dir| > 1 || dir in t ==> RepoDirAsWritten(t, dir) == RepoDir(t, dir)
    ensures |dir| <= 1 && dir !in t ==> RepoDirAsWritten(t, dir) == Opened(Fail(NullPointerException), t)
  {
  }

  /** A missing directory named by a single name, in a writable working
      directory: the check as written throws NullPointerException where the
      intended check creates it. */
  lemma RepoDirSingleNameAsWritten()
    ensures IsWritableDirectory(map[[] := Directory(true)], Container(["repo"]))
    ensures RepoDirAsWritten(map[[] := Directory(true)], ["repo"]).outcome == Fail(NullPointerException)
    ensures RepoDir(map[[] := Directory(true)], ["repo"]) ==
            Opened(Pass, map[[] := Directory(true), ["repo"] := Directory(true)])
  {
    var t := map[[] := Directory(true)];
    assert Container(["repo"]) == [];
    assert ["repo"] !in t;
  }

  /** What the private constructor does to the filesystem and whether it
      throws: the directory check, then, when signing, the keyring check
      (Paths.get(null) throws for a missing keyring). */
  function Construct(t: Tree, repoDir: Path, sign: bool, keyring: Option<Path>): (r: Opened)
    ensures r.outcome.Pass? <==>
              RepoDir(t, repoDir).outcome.Pass? &&
              (sign ==> keyring.Some? && IsRegularFile(RepoDir(t, repoDir).tree, keyring.value))
    ensures r.outcome.Pass? ==> repoDir in r.tree
    ensures r.tree == RepoDir(t, repoDir).tree
    ensures RepoDir(t, repoDir).outcome.Fail? ==> r.outcome == RepoDir(t, repoDir).outcome
    ensures RepoDir(t, repoDir).outcome.Pass? && sign && keyring.None? ==> r.outcome == Fail(NullPointerException)
    ensures TreeChangedOnly(t, r.tree, {repoDir})
  {
    var o := RepoDir(t, repoDir);
    if o.outcome.Fail? then o
    else if !sign then o
    else
      match keyring
      case None => Opened(Fail(NullPointerException), o.tree)
      case Some(k) =>
        if IsRegularFile(o.tree, k) then o
        else Opened(Fail(Raise("keyring does not exist: " + Show(k))), o.tree)
  }

  /** The builder the constructor returns. */
  function Initial(t: Tree, repoDir: Path, sign: bool, keyring: Option<Path>, keyId: Option<string>,
                   passphrase: Option<string>, passphraseFile: Option<Path>, digest: Option<string>): (m: Model)
    requires sign ==> keyring.Some?
    ensures m.tree == t && m.repoDir == repoDir && m.sign == sign
    ensures Configured(m) && m.debFiles == [] && m.release.None?
    ensures m.packagesFile.None? && m.packagesGzFile.None?
    ensures m.sign ==> m.keyring == keyring && m.keyId == keyId && m.passphrase == passphrase &&
                       m.passphraseFile == passphraseFile && m.digest == digest
  {
    if sign then Model(t, repoDir, true, passphraseFile, keyring, keyId, digest, [], passphrase, None, None, None)
    else Model(t, repoDir, false, None, None, None, None, [], None, None, None, None)
  }

  /** The constructor's check of the repository directory, case by case:
      an existing path leaves the filesystem as it is; a missing one whose
      directory is a writable directory is created; a missing one whose
      directory does not exist fails with "repDir does not exist". */
  lemma {:induction false} RepoDirThreeWays(t: Tree, dir: Path)
    ensures dir in t ==> RepoDir(t, dir) == Opened(Pass, t)
    ensures dir !in t && dir != [] && IsWritableDirectory(t, Container(dir)) ==>
              RepoDir(t, dir) == Opened(Pass, t[dir := Directory(true)]) && IsDirectory(RepoDir(t, dir).tree, dir)
    ensures dir !in t && (dir == [] || !IsDirectory(t, Container(dir))) ==>
              RepoDir(t, dir) == Opened(Fail(Raise("repDir does not exist: " + Show(dir))), t)
  {
  }

  /** When signing, a keyring that is not a regular file fails the
      constructor once the directory check has passed; a repository
      directory the check created stays created. */
  lemma KeyringChecked(t: Tree, repoDir: Path, k: Path)
    requires RepoDir(t, repoDir).outcome.Pass? && !IsRegularFile(RepoDir(t, repoDir).tree, k)
    ensures Construct(t, repoDir, true, Some(k)) ==
            Opened(Fail(Raise("keyring does not exist: " + Show(k))), RepoDir(t, repoDir).tree)
  {
  }

  // ---------------------------------------------------------------- getDigestCode

  const DigestNames: set<string> := {"SHA1", "MD2", "MD5", "RIPEMD160", "SHA256", "SHA384", "SHA512", "SHA224"}

  /** getDigestCode: the OpenPGP hash algorithm tag (RFC 4880 section 9.4,
      with MD2 as BouncyCastle numbers it) for exactly eight names. */
  function DigestCode(name: string): (r: Result<int>)
    ensures r.Ok? <==> name in DigestNames
    ensures r.Ok? ==> 1 <= r.value <= 11
    ensures r.Err? ==> r.error == Raise("unknown hash algorithm tag in digestName: " + name)
  {
    if name == "SHA1" then Ok(2)
    else if name == "MD2" then Ok(5)
    else if name == "MD5" then Ok(1)
    else if name == "RIPEMD160" then Ok(3)
    else if name == "SHA256" then Ok(8)
    else if name == "SHA384" then Ok(9)
    else if name == "SHA512" then Ok(10)
    else if name == "SHA224" then Ok(11)
    else Err(Raise("unknown hash algorithm tag in digestName: " + name))
  }

  /** The table read the other way. */
  function DigestName(tag: int): Option<string>
  {
    match tag
    case 1 => Some("MD5")
    case 2 => Some("SHA1")
    case 3 => Some("RIPEMD160")
    case 5 => Some("MD2")
    case 8 => Some("SHA256")
    case 9 => Some("SHA384")
    case 10 => Some("SHA512")
    case 11 => Some("SHA224")
    case _ => None
  }

  /** The lookup is a bijection between the eight names and their tags, and
      the default name has the SHA-256 tag. */
  lemma DigestCodeRoundTrip(name: string, tag: int)
    ensures DigestCode(name).Ok? ==> DigestName(DigestCode(name).value) == Some(name)
    ensures DigestName(tag).Some? ==> DigestCode(DigestName(tag).value) == Ok(tag)
    ensures DigestCode(DefaultDigest) == Ok(8)
  {
  }

  /** Java renders a null string as "null" when concatenating, and "null"
      is none of the eight names, so a null digest name fails like this. */
  function NullableText(s: Option<string>): string
  {
    if s.Some? then s.value else "null"
  }

  // ---------------------------------------------------------------- createPackagesFile

  /** The loop body of createPackagesFile for one registered file: size and
      the four digests of the whole archive, its name, then the control
      lookup. */
  function ExtractEntry(lib: Libraries, t: Tree, file: Path): Result<PackageEntry>
  {
    match Digest(lib.digests, t, "SHA-1", file)
    case Err(e) => Err(e)
    case Ok(sha1) =>
      match Digest(lib.digests, t, "SHA-256", file)
      case Err(e) => Err(e)
      case Ok(sha256) =>
        match Digest(lib.digests, t, "SHA-512", file)
        case Err(e) => Err(e)
        case Ok(sha512) =>
          match Digest(lib.digests, t, "MD5", file)
          case Err(e) => Err(e)
          case Ok(md5) =>
            var entry := PackageEntry(Length(t, file), Name(file), md5, sha1, sha256, sha512, None);
            match LookupControl(lib.tgz, lib.ar(t[file].contents))
            case NoControlArchive => Ok(entry)
            case ControlContent(c) => Ok(entry.(control := Some(c)))
            case NoControlContent => Err(Raise("no control content found for: " + Name(file)))
            case ReadFailure => Err(Raise("Packages IOExeption"))
  }

  /** The for-each loop of createPackagesFile: the entries `extract` gives
      for `files`, in order, or the first failure. */
  function Collect(extract: Path -> Result<PackageEntry>, files: seq<Path>): Result<seq<PackageEntry>>
  {
    if files == [] then Ok([])
    else
      match Collect(extract, files[..|files| - 1])
      case Err(e) => Err(e)
      case Ok(ps) =>
        match extract(files[|files| - 1])
        case Err(e) => Err(e)
        case Ok(p) => Ok(ps + [p])
  }

  function Extractor(lib: Libraries, t: Tree): Path -> Result<PackageEntry>
  {
    file => ExtractEntry(lib, t, file)
  }

  /** The package entries for the registered files, or the first failure. */
  function BuildPackages(lib: Libraries, t: Tree, files: seq<Path>): Result<seq<PackageEntry>>
  {
    Collect(Extractor(lib, t), files)
  }

  lemma {:induction false} CollectPrefixFails(extract: Path -> Result<PackageEntry>, files: seq<Path>, k: nat)
    requires k <= |files|
    requires Collect(extract, files[..k]).Err?
    ensures Collect(extract, files) == Collect(extract, files[..k])
    decreases |files| - k
  {
    if k < |files| {
      var n := |files|;
      assert files[..n - 1][..k] == files[..k];
      CollectPrefixFails(extract, files[..n - 1], k);
    } else {
      assert files[..k] == files;
    }
  }

  /** A successful loop yields one entry per file, in order. */
  lemma {:induction false} CollectInOrder(extract: Path -> Result<PackageEntry>, files: seq<Path>)
    requires Collect(extract, files).Ok?
    ensures |Collect(extract, files).value| == |files|
    ensures forall i :: 0 <= i < |files| ==> extract(files[i]) == Ok(Collect(extract, files).value[i])
  {
    if files != [] {
      var n := |files|;
      var init := files[..n - 1];
      CollectInOrder(extract, init);
      forall i | 0 <= i < n - 1
        ensures extract(files[i]) == Ok(Collect(extract, files).value[i])
      {
        assert init[i] == files[i];
      }
    }
  }

  /** A failing loop fails with what the first failing file gives. */
  lemma {:induction false} CollectFailsOnFirst(extract: Path -> Result<PackageEntry>, files: seq<Path>)
    requires Collect(extract, files).Err?
    ensures exists i :: 0 <= i < |files| && extract(files[i]) == Err(Collect(extract, files).error) &&
                        forall j :: 0 <= j < i ==> extract(files[j]).Ok?
  {
    var n := |files|;
    var init := files[..n - 1];
    if Collect(extract, init).Err? {
      CollectFailsOnFirst(extract, init);
      var i :| 0 <= i < |init| && extract(init[i]) == Err(Collect(extract, init).error) &&
               forall j :: 0 <= j < i ==> extract(init[j]).Ok?;
      forall j | 0 <= j < i
        ensures extract(files[j]).Ok?
      {
        assert init[j] == files[j];
      }
      assert init[i] == files[i];
    } else {
      CollectInOrder(extract, init);
      forall j | 0 <= j < n - 1
        ensures extract(files[j]).Ok?
      {
        assert init[j] == files[j];
      }
    }
  }

  /** One entry per registered file, in registration order: the i-th entry
      is the one extracted from the i-th file and carries its name. */
  lemma PackagesInOrder(lib: Libraries, t: Tree, files: seq<Path>)
    requires BuildPackages(lib, t, files).Ok?
    ensures |BuildPackages(lib, t, files).value| == |files|
    ensures forall i :: 0 <= i < |files| ==>
              ExtractEntry(lib, t, files[i]) == Ok(BuildPackages(lib, t, files).value[i])
    ensures forall i :: 0 <= i < |files| ==> BuildPackages(lib, t, files).value[i].filename == Name(files[i])
  {
    CollectInOrder(Extractor(lib, t), files);
    forall i | 0 <= i < |files|
      ensures BuildPackages(lib, t, files).value[i].filename == Name(files[i])
    {
      ExtractEntryName(lib, t, files[i]);
    }
  }

  lemma ExtractEntryName(lib: Libraries, t: Tree, file: Path)
    ensures ExtractEntry(lib, t, file).Ok? ==> ExtractEntry(lib, t, file).value.filename == Name(file)
  {
  }

  /** What one archive contributes: when it cannot be read or a default
      algorithm is unknown, the digest error; otherwise an entry with the
      archive's length, its name and the four digests of the whole archive,
      which keeps only those when there is no control.tar.gz and also the
      ./control data when there is one; a control.tar.gz without ./control
      and a read error fail with the messages of the source. */
  lemma ExtractEntryMeaning(lib: Libraries, t: Tree, file: Path)
    ensures ExtractEntry(lib, t, file).Ok? ==>
              CanRead(t, file) && {"MD5", "SHA-1", "SHA-256", "SHA-512"} <= lib.digests.algorithms
    ensures !(CanRead(t, file) && {"MD5", "SHA-1", "SHA-256", "SHA-512"} <= lib.digests.algorithms) ==>
              ExtractEntry(lib, t, file) == Err(Raise(CouldNotCreateDigest))
    ensures CanRead(t, file) && {"MD5", "SHA-1", "SHA-256", "SHA-512"} <= lib.digests.algorithms ==>
              var lookup := LookupControl(lib.tgz, lib.ar(t[file].contents));
              var entry := PackageEntry(Length(t, file), Name(file),
                                        Digest(lib.digests, t, "MD5", file).value,
                                        Digest(lib.digests, t, "SHA-1", file).value,
                                        Digest(lib.digests, t, "SHA-256", file).value,
                                        Digest(lib.digests, t, "SHA-512", file).value,
                                        None);
              (lookup == NoControlArchive ==> ExtractEntry(lib, t, file) == Ok(entry)) &&
              (lookup.ControlContent? ==>
                 ExtractEntry(lib, t, file) == Ok(entry.(control := Some(lookup.content)))) &&
              (lookup == NoControlContent ==>
                 ExtractEntry(lib, t, file) == Err(Raise("no control content found for: " + Name(file)))) &&
              (lookup == ReadFailure ==> ExtractEntry(lib, t, file) == Err(Raise("Packages IOExeption")))
  {
  }

  /** A failing index fails with the exception of the first failing file:
      every file before it is extracted. */
  lemma PackagesFailOnFirst(lib: Libraries, t: Tree, files: seq<Path>)
    requires BuildPackages(lib, t, files).Err?
    ensures exists i :: 0 <= i < |files| && ExtractEntry(lib, t, files[i]) == Err(BuildPackages(lib, t, files).error) &&
                        forall j :: 0 <= j < i ==> ExtractEntry(lib, t, files[j]).Ok?
  {
    CollectFailsOnFirst(Extractor(lib, t), files);
  }

  /** The index fails exactly when some registered file fails. */
  lemma PackagesFailIff(lib: Libraries, t: Tree, files: seq<Path>)
    ensures BuildPackages(lib, t, files).Err? <==> exists i :: 0 <= i < |files| && ExtractEntry(lib, t, files[i]).Err?
  {
    if BuildPackages(lib, t, files).Err? {
      PackagesFailOnFirst(lib, t, files);
    } else {
      PackagesInOrder(lib, t, files);
    }
  }

  /** The write block: Packages, then Packages.gz, each receiving the text
      of the same index; a file that cannot be opened fails the call with
      "invalid repodir". */
  function WritePackages(lib: Libraries, m: Model, ps: seq<PackageEntry>): Step
  {
    var text := lib.encode(lib.packagesText(ps));
    var pf := Child(m.repoDir, Packages);
    var gz := Child(m.repoDir, PackagesGz);
    if !CanOpenForWrite(m.tree, pf) then
      Step(Fail(Raise("invalid repodir: " + Show(m.repoDir))), m)
    else
      var m1 := m.(tree := Store(m.tree, pf, text), packagesFile := Some(pf));
      if !CanOpenForWrite(m1.tree, gz) then
        Step(Fail(Raise("invalid repodir: " + Show(m.repoDir))), m1)
      else
        Step(Pass, m1.(tree := Store(m1.tree, gz, lib.gzip(text)), packagesGzFile := Some(gz)))
  }

  /** createPackagesFile: every entry is extracted before anything is
      written, so a failing archive leaves the filesystem and the builder as
      they were; on success both files are recorded in the builder. */
  function PackagesPhase(lib: Libraries, m: Model): (s: Step)
    ensures SameSettings(m, s.state) && s.state.debFiles == m.debFiles
    ensures s.state.passphrase == m.passphrase && s.state.release == m.release
    ensures BuildPackages(lib, m.tree, m.debFiles).Err? ==>
              s == Step(Fail(BuildPackages(lib, m.tree, m.debFiles).error), m)
    ensures s.outcome.Pass? ==>
              s.state.packagesFile == Some(Child(m.repoDir, Packages)) &&
              s.state.packagesGzFile == Some(Child(m.repoDir, PackagesGz))
    ensures TreeChangedOnly(m.tree, s.state.tree, {Child(m.repoDir, Packages), Child(m.repoDir, PackagesGz)})
  {
    match BuildPackages(lib, m.tree, m.debFiles)
    case Err(e) => Step(Fail(e), m)
    case Ok(ps) => WritePackages(lib, m, ps)
  }

  /** When the write block completes, Packages holds the index text and
      Packages.gz the same text compressed, so that a decompressor that
      inverts the compressor gets back exactly the bytes of Packages. */
  lemma PackagesFilesAgree(lib: Libraries, m: Model, gunzip: Bytes -> Bytes)
    requires forall b :: gunzip(lib.gzip(b)) == b
    requires PackagesPhase(lib, m).outcome.Pass?
    ensures BuildPackages(lib, m.tree, m.debFiles).Ok?
    ensures var t := PackagesPhase(lib, m).state.tree;
            var pf := Child(m.repoDir, Packages);
            var gz := Child(m.repoDir, PackagesGz);
            IsRegularFile(t, pf) && IsRegularFile(t, gz) &&
            t[pf].contents == lib.encode(lib.packagesText(BuildPackages(lib, m.tree, m.debFiles).value)) &&
            gunzip(t[gz].contents) == t[pf].contents
  {
    var pf := Child(m.repoDir, Packages);
    var gz := Child(m.repoDir, PackagesGz);
    assert pf != gz by {
      assert pf[|pf| - 1] != gz[|gz| - 1];
    }
  }

  // ---------------------------------------------------------------- createReleaseFile

  /** createReleaseFile: a fresh Release receives the info for Packages, then
      for Packages.gz (each with the file's length and default digests), and
      is written to Release. A failing digest leaves the release holding the
      infos added so far. */
  function ReleasePhase(lib: Libraries, m: Model): (s: Step)
    requires m.packagesFile.Some? && m.packagesGzFile.Some?
    ensures SameSettings(m, s.state) && s.state.debFiles == m.debFiles && s.state.passphrase == m.passphrase
    ensures s.state.packagesFile == m.packagesFile && s.state.packagesGzFile == m.packagesGzFile
    ensures s.state.release.Some? && |s.state.release.value| <= 2
    ensures TreeChangedOnly(m.tree, s.state.tree, {Child(m.repoDir, ReleaseName)})
  {
    var pf := m.packagesFile.value;
    var gz := m.packagesGzFile.value;
    match DefaultDigests(lib.digests, m.tree, HashValues, pf)
    case Err(e) => Step(Fail(e), m.(release := Some([])))
    case Ok(hashes) =>
      var info := ReleaseInfo(Packages, Length(m.tree, pf), hashes);
      match DefaultDigests(lib.digests, m.tree, HashValues, gz)
      case Err(e) => Step(Fail(e), m.(release := Some([info])))
      case Ok(gzHashes) =>
        var infos := [info, ReleaseInfo(PackagesGz, Length(m.tree, gz), gzHashes)];
        var rf := Child(m.repoDir, ReleaseName);
        if !CanOpenForWrite(m.tree, rf) then
          Step(Fail(Raise("Release file got IOException")), m.(release := Some(infos)))
        else
          Step(Pass, m.(tree := Store(m.tree, rf, lib.encode(lib.releaseText(infos))), release := Some(infos)))
  }

  /** A completed release lists exactly two files, Packages then
      Packages.gz, each with that file's length and its four default
      digests, and Release holds the manifest's text. */
  lemma ReleaseListsBothIndexFiles(lib: Libraries, m: Model)
    requires m.packagesFile.Some? && m.packagesGzFile.Some?
    requires ReleasePhase(lib, m).outcome.Pass?
    ensures CanRead(m.tree, m.packagesFile.value) && CanRead(m.tree, m.packagesGzFile.value)
    ensures {"MD5", "SHA-1", "SHA-256", "SHA-512"} <= lib.digests.algorithms
    ensures var pf, gz := m.packagesFile.value, m.packagesGzFile.value;
            var infos := ReleasePhase(lib, m).state.release.value;
            var t' := ReleasePhase(lib, m).state.tree;
            |infos| == 2 &&
            infos[0].name == Packages && infos[0].size == Length(m.tree, pf) &&
            infos[1].name == PackagesGz && infos[1].size == Length(m.tree, gz) &&
            infos[0].hashes == DefaultHashes(Some(Digest(lib.digests, m.tree, "MD5", pf).value),
                                             Some(Digest(lib.digests, m.tree, "SHA-1", pf).value),
                                             Some(Digest(lib.digests, m.tree, "SHA-256", pf).value),
                                             Some(Digest(lib.digests, m.tree, "SHA-512", pf).value)) &&
            infos[1].hashes == DefaultHashes(Some(Digest(lib.digests, m.tree, "MD5", gz).value),
                                             Some(Digest(lib.digests, m.tree, "SHA-1", gz).value),
                                             Some(Digest(lib.digests, m.tree, "SHA-256", gz).value),
                                             Some(Digest(lib.digests, m.tree, "SHA-512", gz).value)) &&
            IsRegularFile(t', Child(m.repoDir, ReleaseName)) &&
            t'[Child(m.repoDir, ReleaseName)].contents == lib.encode(lib.releaseText(infos))
  {
    StandardDigests(lib.digests, m.tree, m.packagesFile.value);
    StandardDigests(lib.digests, m.tree, m.packagesGzFile.value);
  }

  /** How the release phase ends: it completes exactly when both index
      files can be read, the four default digests are known and Release can
      be opened. A failing digest of Packages leaves the release empty, one
      of Packages.gz leaves it holding the info for Packages, and a Release
      that cannot be opened leaves it holding both infos; in every failure
      nothing is written. */
  lemma ReleaseFailures(lib: Libraries, m: Model)
    requires m.packagesFile.Some? && m.packagesGzFile.Some?
    ensures var s := ReleasePhase(lib, m);
            s.outcome.Pass? <==>
              CanRead(m.tree, m.packagesFile.value) && CanRead(m.tree, m.packagesGzFile.value) &&
              {"MD5", "SHA-1", "SHA-256", "SHA-512"} <= lib.digests.algorithms &&
              CanOpenForWrite(m.tree, Child(m.repoDir, ReleaseName))
    ensures !(CanRead(m.tree, m.packagesFile.value) && {"MD5", "SHA-1", "SHA-256", "SHA-512"} <= lib.digests.algorithms) ==>
              ReleasePhase(lib, m) == Step(Fail(Raise(CouldNotCreateDigest)), m.(release := Some([])))
    ensures CanRead(m.tree, m.packagesFile.value) && {"MD5", "SHA-1", "SHA-256", "SHA-512"} <= lib.digests.algorithms &&
            !CanRead(m.tree, m.packagesGzFile.value) ==>
              var s := ReleasePhase(lib, m);
              s.outcome == Fail(Raise(CouldNotCreateDigest)) && s.state == m.(release := s.state.release) &&
              |s.state.release.value| == 1 && s.state.release.value[0].name == Packages &&
              s.state.release.value[0].size == Length(m.tree, m.packagesFile.value)
    ensures CanRead(m.tree, m.packagesFile.value) && CanRead(m.tree, m.packagesGzFile.value) &&
            {"MD5", "SHA-1", "SHA-256", "SHA-512"} <= lib.digests.algorithms &&
            !CanOpenForWrite(m.tree, Child(m.repoDir, ReleaseName)) ==>
              var s := ReleasePhase(lib, m);
              s.outcome == Fail(Raise("Release file got IOException")) && s.state == m.(release := s.state.release) &&
              |s.state.release.value| == 2 &&
              s.state.release.value[0].name == Packages && s.state.release.value[1].name == PackagesGz
  {
    StandardDigests(lib.digests, m.tree, m.packagesFile.value);
    StandardDigests(lib.digests, m.tree, m.packagesGzFile.value);
  }

  // ---------------------------------------------------------------- sign

  /** The passphrase sign() uses: the first line of the passphrase file when
      one is configured (null for an empty file), else the configured
      value; a passphrase file that cannot be opened fails the call. */
  function ResolvePassphrase(lib: Libraries, m: Model): (r: Result<Option<string>>)
    ensures m.passphraseFile.None? ==> r == Ok(m.passphrase)
    ensures m.passphraseFile.Some? ==>
              (r.Ok? <==> CanRead(m.tree, m.passphraseFile.value)) &&
              (r.Ok? ==> r.value == lib.readLine(m.tree[m.passphraseFile.value].contents))
  {
    match m.passphraseFile
    case None => Ok(m.passphrase)
    case Some(f) =>
      if CanRead(m.tree, f) then Ok(lib.readLine(m.tree[f].contents)) else Err(Raise("file not found"))
  }

  /** Opening `file` for the signer and letting `signWith` write into it;
      the file exists, empty, from the moment it is opened. */
  function SignInto(m: Model, file: Path, signed: Attempt<Bytes>): (s: Step)
    ensures s.state == m.(tree := s.state.tree)
    ensures TreeChangedOnly(m.tree, s.state.tree, {file})
  {
    if !CanOpenForWrite(m.tree, file) then Step(Fail(Raise("file not found")), m)
    else
      match signed
      case Threw(x) => Step(Fail(Raise(ThrownMessage(x))), m.(tree := Store(m.tree, file, [])))
      case Done(bytes) => Step(Pass, m.(tree := Store(m.tree, file, bytes)))
  }

  /** The signer's part of sign(), once its key is known: build the signer,
      then write the detached signature to Release.gpg and the clear-signed
      manifest to InRelease, both over the text of the release. Only those
      two files can change. */
  function SignWith(lib: Libraries, m: Model, key: SignKey): (s: Step)
    requires m.release.Some?
    ensures s.state == m.(tree := s.state.tree)
    ensures TreeChangedOnly(m.tree, s.state.tree, {Child(m.repoDir, ReleaseGpg), Child(m.repoDir, InRelease)})
  {
    match lib.openSigner(key)
    case Some(x) => Step(Fail(Raise(ThrownMessage(x))), m)
    case None =>
      var text := lib.releaseText(m.release.value);
      var s1 := SignInto(m, Child(m.repoDir, ReleaseGpg), lib.signDetached(key, text));
      if s1.outcome.Fail? then s1
      else SignInto(s1.state, Child(m.repoDir, InRelease), lib.signClear(key, text))
  }

  /** sign(): resolve the passphrase, build the signer from the keyring, the
      key id, the passphrase and the digest's tag, then write the detached
      signature to Release.gpg and the clear-signed manifest to InRelease,
      both over the text of the release. */
  function SignPhase(lib: Libraries, m: Model): (s: Step)
    requires m.sign && m.keyring.Some? && m.release.Some?
    ensures SameSettings(m, s.state) && s.state.debFiles == m.debFiles && s.state.release == m.release
    ensures s.state.packagesFile == m.packagesFile && s.state.packagesGzFile == m.packagesGzFile
    ensures m.passphraseFile.None? || !CanRead(m.tree, m.passphraseFile.value) ==> s.state.passphrase == m.passphrase
    ensures TreeChangedOnly(m.tree, s.state.tree, {Child(m.repoDir, ReleaseGpg), Child(m.repoDir, InRelease)})
  {
    match ResolvePassphrase(lib, m)
    case Err(e) => Step(Fail(e), m)
    case Ok(passphrase) =>
      var m1 := m.(passphrase := passphrase);
      var keyring := m.keyring.value;
      if !CanRead(m.tree, keyring) then Step(Fail(Raise("file not found")), m1)
      else
        match DigestCode(NullableText(m.digest))
        case Err(e) => Step(Fail(AptRepoException("aptRepoException", Some(e))), m1)
        case Ok(tag) =>
          SignWith(lib, m1, SignKey(m.tree[keyring].contents, m.keyId, passphrase, tag))
  }

  /** A configured passphrase file replaces the passphrase with its first
      line, and the replacement stays even when signing then fails. */
  lemma PassphraseFromFile(lib: Libraries, m: Model)
    requires m.sign && m.keyring.Some? && m.release.Some?
    requires m.passphraseFile.Some? && CanRead(m.tree, m.passphraseFile.value)
    ensures SignPhase(lib, m).state.passphrase == lib.readLine(m.tree[m.passphraseFile.value].contents)
  {
  }

  /** A digest name outside the eight fails the call before anything is
      written, wrapped in an AptRepoException("aptRepoException"). */
  lemma UnknownDigestFailsBeforeWriting(lib: Libraries, m: Model)
    requires m.sign && m.keyring.Some? && m.release.Some?
    requires ResolvePassphrase(lib, m).Ok? && CanRead(m.tree, m.keyring.value)
    requires NullableText(m.digest) !in DigestNames
    ensures SignPhase(lib, m).outcome ==
            Fail(AptRepoException("aptRepoException",
                                  Some(Raise("unknown hash algorithm tag in digestName: " + NullableText(m.digest)))))
    ensures SignPhase(lib, m).state.tree == m.tree
  {
  }

  /** A completed sign() leaves in Release.gpg the detached signature and in
      InRelease the clear-signed text, both made with the same key over the
      same release text. */
  lemma SignaturesCoverRelease(lib: Libraries, m: Model)
    requires m.sign && m.keyring.Some? && m.release.Some?
    requires SignPhase(lib, m).outcome.Pass?
    ensures ResolvePassphrase(lib, m).Ok? && CanRead(m.tree, m.keyring.value)
    ensures DigestCode(NullableText(m.digest)).Ok?
    ensures var key := SignKey(m.tree[m.keyring.value].contents, m.keyId, ResolvePassphrase(lib, m).value,
                               DigestCode(NullableText(m.digest)).value);
            var text := lib.releaseText(m.release.value);
            var t := SignPhase(lib, m).state.tree;
            lib.signDetached(key, text).Done? && lib.signClear(key, text).Done? &&
            IsRegularFile(t, Child(m.repoDir, ReleaseGpg)) && IsRegularFile(t, Child(m.repoDir, InRelease)) &&
            t[Child(m.repoDir, ReleaseGpg)].contents == lib.signDetached(key, text).value &&
            t[Child(m.repoDir, InRelease)].contents == lib.signClear(key, text).value
  {
    var gpg, inr := Child(m.repoDir, ReleaseGpg), Child(m.repoDir, InRelease);
    assert gpg != inr by {
      assert gpg[|gpg| - 1] != inr[|inr| - 1];
    }
  }

  // ---------------------------------------------------------------- create

  /** create(): the packages, then the release, then the signature only when
      the builder signs; the first failure ends the call. */
  function CreateRun(lib: Libraries, m: Model): (s: Step)
    requires Configured(m)
    ensures SameSettings(m, s.state) && s.state.debFiles == m.debFiles
    ensures Configured(s.state)
  {
    var s1 := PackagesPhase(lib, m);
    if s1.outcome.Fail? then s1
    else
      var s2 := ReleasePhase(lib, s1.state);
      if s2.outcome.Fail? || !m.sign then s2
      else SignPhase(lib, s2.state)
  }

  /** The phases of create() in order: a failed packages phase ends the call
      with nothing written; otherwise the release is built from the two
      files just written; the signing phase runs exactly when the builder
      signs and the release phase completed, and an unsigned build never
      touches Release.gpg or InRelease. */
  lemma CreatePhases(lib: Libraries, m: Model)
    requires Configured(m)
    ensures PackagesPhase(lib, m).outcome.Fail? ==> CreateRun(lib, m) == PackagesPhase(lib, m)
    ensures BuildPackages(lib, m.tree, m.debFiles).Err? ==> CreateRun(lib, m).state == m
    ensures PackagesPhase(lib, m).outcome.Pass? ==>
              var s2 := ReleasePhase(lib, PackagesPhase(lib, m).state);
              CreateRun(lib, m) == if m.sign && s2.outcome.Pass? then SignPhase(lib, s2.state) else s2
    ensures !m.sign ==>
              TreeChangedOnly(m.tree, CreateRun(lib, m).state.tree,
                              {Child(m.repoDir, Packages), Child(m.repoDir, PackagesGz), Child(m.repoDir, ReleaseName)})
  {
  }

  /** Once every archive is extracted, the write block completes exactly
      when Packages and Packages.gz can be opened for writing, and otherwise
      fails with "invalid repodir"; Packages is written and recorded before
      Packages.gz is opened. On success both are readable and Packages holds
      the text of the index. */
  lemma PackagesWritten(lib: Libraries, m: Model)
    requires BuildPackages(lib, m.tree, m.debFiles).Ok?
    ensures PackagesPhase(lib, m).outcome.Pass? <==>
              CanOpenForWrite(m.tree, Child(m.repoDir, Packages)) &&
              CanOpenForWrite(m.tree, Child(m.repoDir, PackagesGz))
    ensures PackagesPhase(lib, m).outcome.Fail? ==>
              PackagesPhase(lib, m).outcome.error == Raise("invalid repodir: " + Show(m.repoDir))
    ensures PackagesPhase(lib, m).outcome.Fail? && CanOpenForWrite(m.tree, Child(m.repoDir, Packages)) ==>
              PackagesPhase(lib, m).state.packagesFile == Some(Child(m.repoDir, Packages)) &&
              PackagesPhase(lib, m).state.packagesGzFile == m.packagesGzFile
    ensures CanOpenForWrite(m.tree, Child(m.repoDir, Packages)) ==>
              var t := PackagesPhase(lib, m).state.tree;
              CanRead(t, Child(m.repoDir, Packages)) &&
              t[Child(m.repoDir, Packages)].contents ==
                lib.encode(lib.packagesText(BuildPackages(lib, m.tree, m.debFiles).value))
    ensures PackagesPhase(lib, m).outcome.Pass? ==> CanRead(PackagesPhase(lib, m).state.tree, Child(m.repoDir, PackagesGz))
  {
    var pf, gz := Child(m.repoDir, Packages), Child(m.repoDir, PackagesGz);
    assert pf != gz by {
      assert pf[|pf| - 1] != gz[|gz| - 1];
    }
    assert Container(pf) == m.repoDir && Container(gz) == m.repoDir;
    assert m.repoDir != pf && m.repoDir != gz by {
      assert |pf| == |gz| == |m.repoDir| + 1;
    }
  }

  /** The release phase completes when both index files are readable, the
      JVM knows the four default digests and Release can be opened for
      writing. */
  lemma ReleaseWritten(lib: Libraries, m: Model)
    requires m.packagesFile.Some? && m.packagesGzFile.Some?
    requires CanRead(m.tree, m.packagesFile.value) && CanRead(m.tree, m.packagesGzFile.value)
    requires {"MD5", "SHA-1", "SHA-256", "SHA-512"} <= lib.digests.algorithms
    requires CanOpenForWrite(m.tree, Child(m.repoDir, ReleaseName))
    ensures ReleasePhase(lib, m).outcome == Pass
  {
    StandardDigests(lib.digests, m.tree, m.packagesFile.value);
    StandardDigests(lib.digests, m.tree, m.packagesGzFile.value);
  }

  /** Building a repository with no registered packages succeeds, without
      signing, when Packages, Packages.gz and Release can be opened for
      writing in the repository directory and the JVM knows the four default
      digests: Packages holds the text of the empty index and the release
      lists both files. */
  lemma EmptyRepository(lib: Libraries, m: Model)
    requires Configured(m) && !m.sign && m.debFiles == []
    requires CanOpenForWrite(m.tree, Child(m.repoDir, Packages))
    requires CanOpenForWrite(m.tree, Child(m.repoDir, PackagesGz))
    requires CanOpenForWrite(m.tree, Child(m.repoDir, ReleaseName))
    requires {"MD5", "SHA-1", "SHA-256", "SHA-512"} <= lib.digests.algorithms
    ensures CreateRun(lib, m).outcome == Pass
    ensures var t := CreateRun(lib, m).state.tree;
            IsRegularFile(t, Child(m.repoDir, Packages)) &&
            t[Child(m.repoDir, Packages)].contents == lib.encode(lib.packagesText([])) &&
            |CreateRun(lib, m).state.release.value| == 2
  {
    var pf, gz, rf := Child(m.repoDir, Packages), Child(m.repoDir, PackagesGz), Child(m.repoDir, ReleaseName);
    assert rf != pf && rf != gz by {
      assert rf[|rf| - 1] != pf[|pf| - 1] && rf[|rf| - 1] != gz[|gz| - 1];
    }
    assert m.repoDir != pf && m.repoDir != gz by {
      assert |pf| == |gz| == |m.repoDir| + 1;
    }
    assert Container(rf) == m.repoDir;
    assert BuildPackages(lib, m.tree, m.debFiles) == Ok([]);
    PackagesWritten(lib, m);
    var s1 := PackagesPhase(lib, m);
    assert CanOpenForWrite(s1.state.tree, rf);
    ReleaseWritten(lib, s1.state);
    ReleaseListsBothIndexFiles(lib, s1.state);
  }
}
