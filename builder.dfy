/** RepoBuilder: registers package archives, then builds Packages,
    Packages.gz and Release in the repository directory and, when
    configured to, signs the release into Release.gpg and InRelease. Each
    method is proved to do what the matching function of Pipeline says. */
module Builder {
  import opened Common
  import opened FileSystems
  import opened Digests
  import opened Control
  import opened Pipeline

  class RepoBuilder {
    const fs: FileSystem
    const repoDir: Path
    const sign: bool
    const passphraseFile: Option<Path>
    const keyring: Option<Path>
    const keyId: Option<string>
    const digest: Option<string>
    var debFiles: seq<Path>
    var passphrase: Option<string>
    var packagesFile: Option<Path>
    var packagesGzFile: Option<Path>
    var release: Option<seq<ReleaseInfo>>

    /** The builder and the filesystem as one value. */
    function State(): Model
      reads this, fs
    {
      Model(fs.tree, repoDir, sign, passphraseFile, keyring, keyId, digest,
            debFiles, passphrase, packagesFile, packagesGzFile, release)
    }

    predicate Valid()
      reads this, fs
    {
      Configured(State())
    }

    /** The field assignments that end the private constructor. */
    constructor Init(fs: FileSystem, repoDir: Path, sign: bool, keyring: Option<Path>, keyId: Option<string>,
                     passphrase: Option<string>, passphraseFile: Option<Path>, digest: Option<string>)
      requires sign ==> keyring.Some?
      ensures this.fs == fs
      ensures State() == Initial(fs.tree, repoDir, sign, keyring, keyId, passphrase, passphraseFile, digest)
    {
      this.fs := fs;
      if sign {
        this.passphraseFile := passphraseFile;
        this.keyring := keyring;
        this.keyId := keyId;
        this.passphrase := passphrase;
        this.digest := digest;
      } else {
        this.passphraseFile := None;
        this.keyring := None;
        this.keyId := None;
        this.passphrase := None;
        this.digest := None;
      }
      this.repoDir := repoDir;
      this.sign := sign;
      debFiles := [];
      packagesFile := None;
      packagesGzFile := None;
      release := None;
    }

    /** The private constructor: accept, create or reject the repository
        directory, check the keyring when signing, then fix the fields. */
    static method New(fs: FileSystem, repoDir: Path, sign: bool, keyring: Option<Path>, keyId: Option<string>,
                      passphrase: Option<string>, passphraseFile: Option<Path>, digest: Option<string>)
      returns (r: Result<RepoBuilder>)
      modifies fs
      ensures fs.tree == Construct(old(fs.tree), repoDir, sign, keyring).tree
      ensures r.Err? <==> Construct(old(fs.tree), repoDir, sign, keyring).outcome.Fail?
      ensures r.Err? ==> r.error == Construct(old(fs.tree), repoDir, sign, keyring).outcome.error
      ensures r.Ok? ==> fresh(r.value) && r.value.fs == fs && r.value.Valid() &&
                        r.value.State() == Initial(fs.tree, repoDir, sign, keyring, keyId,
                                                   passphrase, passphraseFile, digest)
    {
      if repoDir !in fs.tree {
        if repoDir != [] && IsDirectory(fs.tree, Container(repoDir)) {
          var ok := fs.CreateDirectory(repoDir);
          if !ok {
            return Err(Raise("creating repo directory failed: " + Show(repoDir)));
          }
        } else {
          return Err(Raise("repDir does not exist: " + Show(repoDir)));
        }
      }
      if sign {
        if keyring.None? {
          return Err(NullPointerException);
        }
        if !IsRegularFile(fs.tree, keyring.value) {
          return Err(Raise("keyring does not exist: " + Show(keyring.value)));
        }
      }
      var b := new RepoBuilder.Init(fs, repoDir, sign, keyring, keyId, passphrase, passphraseFile, digest);
      return Ok(b);
    }

    /** RepoBuilder(repoDir): a builder that does not sign. */
    static method Unsigned(fs: FileSystem, repoDir: Path) returns (r: Result<RepoBuilder>)
      modifies fs
      ensures fs.tree == Construct(old(fs.tree), repoDir, false, None).tree
      ensures r.Err? <==> Construct(old(fs.tree), repoDir, false, None).outcome.Fail?
      ensures r.Err? ==> r.error == Construct(old(fs.tree), repoDir, false, None).outcome.error
      ensures r.Ok? ==> fresh(r.value) && r.value.fs == fs &&
                        r.value.State() == Initial(fs.tree, repoDir, false, None, None, None, None, None)
    {
      r := New(fs, repoDir, false, None, None, None, None, None);
    }

    /** RepoBuilder(repoDir, keyring, keyId, passphrase): signs with the
        given passphrase and the default digest. */
    static method WithPassphrase(fs: FileSystem, repoDir: Path, keyring: Path, keyId: string, passphrase: string)
      returns (r: Result<RepoBuilder>)
      modifies fs
      ensures fs.tree == Construct(old(fs.tree), repoDir, true, Some(keyring)).tree
      ensures r.Err? <==> Construct(old(fs.tree), repoDir, true, Some(keyring)).outcome.Fail?
      ensures r.Err? ==> r.error == Construct(old(fs.tree), repoDir, true, Some(keyring)).outcome.error
      ensures r.Ok? ==> fresh(r.value) && r.value.fs == fs &&
                        r.value.State() == Initial(fs.tree, repoDir, true, Some(keyring), Some(keyId),
                                                   Some(passphrase), None, Some(DefaultDigest))
    {
      r := New(fs, repoDir, true, Some(keyring), Some(keyId), Some(passphrase), None, Some(DefaultDigest));
    }

    /** RepoBuilder(repoDir, keyring, keyId, passphraseFile): signs with the
        first line of the passphrase file and the default digest. */
    static method WithPassphraseFile(fs: FileSystem, repoDir: Path, keyring: Path, keyId: string, passphraseFile: Path)
      returns (r: Result<RepoBuilder>)
      modifies fs
      ensures fs.tree == Construct(old(fs.tree), repoDir, true, Some(keyring)).tree
      ensures r.Err? <==> Construct(old(fs.tree), repoDir, true, Some(keyring)).outcome.Fail?
      ensures r.Err? ==> r.error == Construct(old(fs.tree), repoDir, true, Some(keyring)).outcome.error
      ensures r.Ok? ==> fresh(r.value) && r.value.fs == fs &&
                        r.value.State() == Initial(fs.tree, repoDir, true, Some(keyring), Some(keyId),
                                                   None, Some(passphraseFile), Some(DefaultDigest))
    {
      r := New(fs, repoDir, true, Some(keyring), Some(keyId), None, Some(passphraseFile), Some(DefaultDigest));
    }

    /** create(): packages, release, then the signature when signing. */
    method Create(lib: Libraries) returns (r: Outcome)
      requires Valid()
      modifies this, fs
      ensures Step(r, State()) == CreateRun(lib, old(State()))
      ensures Valid()
    {
      r := CreatePackagesFile(lib);
      if r.Fail? {
        return;
      }
      r := CreateReleaseFile(lib);
      if r.Fail? || !sign {
        return;
      }
      r := Sign(lib);
    }

    /** add(debFile): registers a regular file at the end of the list. */
    method Add(debFile: Path) returns (r: Outcome)
      modifies this`debFiles
      ensures r.Pass? <==> IsRegularFile(fs.tree, debFile)
      ensures r.Fail? ==> r.error == Raise("file not found: " + Show(debFile))
      ensures debFiles == if r.Pass? then old(debFiles) + [debFile] else old(debFiles)
    {
      if !IsRegularFile(fs.tree, debFile) {
        return Fail(Raise("file not found: " + Show(debFile)));
      }
      debFiles := debFiles + [debFile];
      return Pass;
    }

    /** The body of the loop of createPackagesFile for one file. */
    method ReadEntry(lib: Libraries, file: Path) returns (r: Result<PackageEntry>)
      ensures r == ExtractEntry(lib, fs.tree, file)
    {
      var size := Length(fs.tree, file);
      var sha1 := GetDigest(lib.digests, fs, "SHA-1", file);
      if sha1.Err? {
        return Err(sha1.error);
      }
      var sha256 := GetDigest(lib.digests, fs, "SHA-256", file);
      if sha256.Err? {
        return Err(sha256.error);
      }
      var sha512 := GetDigest(lib.digests, fs, "SHA-512", file);
      if sha512.Err? {
        return Err(sha512.error);
      }
      var md5 := GetDigest(lib.digests, fs, "MD5", file);
      if md5.Err? {
        return Err(md5.error);
      }
      var fileName := Name(file);
      var entry := PackageEntry(size, fileName, md5.value, sha1.value, sha256.value, sha512.value, None);
      var lookup := FindControl(lib.tgz, lib.ar(fs.tree[file].contents));
      match lookup
      case NoControlArchive =>
        return Ok(entry);
      case ControlContent(c) =>
        return Ok(entry.(control := Some(c)));
      case NoControlContent =>
        return Err(Raise("no control content found for: " + fileName));
      case ReadFailure =>
        return Err(Raise("Packages IOExeption"));
    }

    /** createPackagesFile(): extract every registered file, then write
        Packages and Packages.gz. */
    method CreatePackagesFile(lib: Libraries) returns (r: Outcome)
      modifies this, fs
      ensures Step(r, State()) == PackagesPhase(lib, old(State()))
    {
      var packages: seq<PackageEntry> := [];
      for i := 0 to |debFiles|
        invariant State() == old(State())
        invariant Collect(Extractor(lib, fs.tree), debFiles[..i]) == Ok(packages)
      {
        assert debFiles[..i + 1][..i] == debFiles[..i];
        var entry := ReadEntry(lib, debFiles[i]);
        if entry.Err? {
          CollectPrefixFails(Extractor(lib, fs.tree), debFiles, i + 1);
          return Fail(entry.error);
        }
        packages := packages + [entry.value];
      }
      assert debFiles[..|debFiles|] == debFiles;
      r := WritePackagesFiles(lib, packages);
    }

    /** The write block of createPackagesFile: Packages, then Packages.gz,
        each over the text of the same index. */
    method WritePackagesFiles(lib: Libraries, packages: seq<PackageEntry>) returns (r: Outcome)
      modifies this, fs
      ensures Step(r, State()) == WritePackages(lib, old(State()), packages)
    {
      var file := Child(repoDir, Packages);
      var ok := fs.WriteFile(file, lib.encode(lib.packagesText(packages)));
      if !ok {
        return Fail(Raise("invalid repodir: " + Show(repoDir)));
      }
      packagesFile := Some(file);
      var gzFile := Child(repoDir, PackagesGz);
      ok := fs.WriteFile(gzFile, lib.gzip(lib.encode(lib.packagesText(packages))));
      if !ok {
        return Fail(Raise("invalid repodir: " + Show(repoDir)));
      }
      packagesGzFile := Some(gzFile);
      return Pass;
    }

    /** createReleaseFile(): the release lists Packages and Packages.gz and
        is written to Release. */
    method CreateReleaseFile(lib: Libraries) returns (r: Outcome)
      requires packagesFile.Some? && packagesGzFile.Some?
      modifies this, fs
      ensures Step(r, State()) == ReleasePhase(lib, old(State()))
    {
      release := Some([]);
      var hashes := GetDefaultDigests(lib.digests, fs, HashValues, packagesFile.value);
      if hashes.Err? {
        return Fail(hashes.error);
      }
      var info := ReleaseInfo(Packages, Length(fs.tree, packagesFile.value), hashes.value);
      release := Some(release.value + [info]);
      assert release.value == [info];
      var gzHashes := GetDefaultDigests(lib.digests, fs, HashValues, packagesGzFile.value);
      if gzHashes.Err? {
        return Fail(gzHashes.error);
      }
      var gzInfo := ReleaseInfo(PackagesGz, Length(fs.tree, packagesGzFile.value), gzHashes.value);
      release := Some(release.value + [gzInfo]);
      assert release.value == [info, gzInfo];
      var ok := fs.WriteFile(Child(repoDir, ReleaseName), lib.encode(lib.releaseText(release.value)));
      if !ok {
        return Fail(Raise("Release file got IOException"));
      }
      return Pass;
    }

    /** sign(): resolve the passphrase, build the signer, then write
        Release.gpg and InRelease. */
    method Sign(lib: Libraries) returns (r: Outcome)
      requires sign && keyring.Some? && release.Some?
      modifies this, fs
      ensures Step(r, State()) == SignPhase(lib, old(State()))
    {
      if passphraseFile.Some? {
        if !CanRead(fs.tree, passphraseFile.value) {
          return Fail(Raise("file not found"));
        }
        passphrase := lib.readLine(fs.tree[passphraseFile.value].contents);
      }
      var inReleaseFile := Child(repoDir, InRelease);
      var releaseGpgFile := Child(repoDir, ReleaseGpg);
      if !CanRead(fs.tree, keyring.value) {
        return Fail(Raise("file not found"));
      }
      var keyringData := fs.tree[keyring.value].contents;
      var tag := DigestCode(NullableText(digest));
      if tag.Err? {
        return Fail(AptRepoException("aptRepoException", Some(tag.error)));
      }
      var key := SignKey(keyringData, keyId, passphrase, tag.value);
      var thrown := lib.openSigner(key);
      if thrown.Some? {
        return Fail(Raise(ThrownMessage(thrown.value)));
      }
      var text := lib.releaseText(release.value);
      r := WriteSignature(releaseGpgFile, lib.signDetached(key, text));
      if r.Fail? {
        return;
      }
      r := WriteSignature(inReleaseFile, lib.signClear(key, text));
    }

    /** Opens `file` for writing, which creates or empties it, and lets the
        signer write `signed` into it. */
    method WriteSignature(file: Path, signed: Attempt<Bytes>) returns (r: Outcome)
      modifies fs
      ensures Step(r, State()) == SignInto(old(State()), file, signed)
    {
      var ok := fs.OpenForWrite(file);
      if !ok {
        return Fail(Raise("file not found"));
      }
      match signed
      case Threw(x) =>
        return Fail(Raise(ThrownMessage(x)));
      case Done(bytes) =>
        fs.Put(file, bytes);
        assert fs.tree == Store(old(fs.tree), file, bytes);
        return Pass;
    }
  }
}
