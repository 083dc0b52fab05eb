# apt-repo-lib: the repository builder, modelled in Dafny

apt-repo-lib builds a flat Debian (APT) repository from a set of `.deb`
package archives. A `RepoBuilder` is opened on a repository directory. If
the directory is missing, the builder creates it. When the builder is asked
to sign, it also checks the keyring. `add` registers package archives.
`create` then runs these phases:

1. It writes the `Packages` index and its gzip-compressed copy
   `Packages.gz`. Each index entry holds the archive's size, its name, its
   MD5, SHA-1, SHA-256 and SHA-512 digests, and the `./control` text found
   inside its `control.tar.gz` member.
2. It writes the `Release` manifest, which lists both index files with
   their lengths and four digests.
3. When signing, it writes the detached signature `Release.gpg` and the
   clear-signed `InRelease`, both over the text of the manifest.

The digest helpers of `Utils` are part of the model. `getDigest` computes
the hex-encoded digest of a file. `getDefaultDigests` computes the four
default digests.

The project has these modules:

- `Common` holds `Option`, `Result`, the two exceptions the code can end
  with (`AptRepoException` with its message, and with its cause where that
  is another `AptRepoException`; and `NullPointerException`), and bytes.
- `FileSystems` models the filesystem as a map from paths (sequences of
  names) to directories and regular files. A `FileSystem` object holds that
  map and changes it in place: it creates a directory, opens a file for
  writing (which creates or empties it), and writes a file.
- `Hex` models the lowercase hex encoding of a digest. Its decoder shows
  that the encoding loses nothing.
- `Digests` models `Utils`. `Digest` is the specification of `getDigest`,
  and the method `GetDigest` is its read-until-`-1` loop over a
  `DigestInputStream`. `DefaultDigests` is the specification of
  `getDefaultDigests`, and the method `GetDefaultDigests` is its loop over
  the `Hashes` values.
- `Control` models the control lookup inside a package archive. An outer
  scan looks for the first `control.tar.gz` entry, and an inner scan looks
  for the first `./control` entry. Both are modelled as loops over an
  `ArchiveInputStream` and as a function.
- `Pipeline` describes every call of `RepoBuilder` as a function. The
  function takes the builder and the filesystem before the call. It returns
  the outcome, and the builder and filesystem after the call. The lemmas
  about the builder are stated on these functions.
- `Builder` holds the class `RepoBuilder`. Its fields are those of the Java
  class, and its methods change them and the filesystem in place. The
  private constructor and the phases of `create` are proved to produce
  exactly the outcome and the state that the matching `Pipeline` function
  gives. The three public constructors are proved to give the filesystem,
  the exception and the initial state that `Pipeline.Construct` and
  `Pipeline.Initial` give. `add` is specified directly by its contract.

The libraries the builder calls are parameters, gathered in a `Libraries`
value:

- the hash functions and the set of algorithm names the JVM knows;
- the `ar` and gzip+tar decoders, which turn bytes into a list of entries
  plus whether reading then failed;
- `Packages.toString()` and `Release.toString()`;
- the platform charset;
- gzip;
- `readLine`;
- the PGP signer.

The model fixes which bytes go to each of them, in what order, and what
the builder does with each answer or exception.

Where the documented design and the code differ, the model follows the
code, except for the defect listed under "## Findings", where the builder
uses the corrected check:

- An archive without `control.tar.gz` is kept in the index without control
  data. It is not rejected. Only a `control.tar.gz` without `./control`
  fails, with "no control content found for: <name>".
- The digest name for signing is checked in `sign()`, after the passphrase
  file and the keyring have been read. The constructor does not check it.
  Eight names are accepted, MD2 among them.
- When a passphrase file is configured, its first line replaces any
  passphrase that was given. Supplying neither is not rejected. The
  constructors do not require a key id.
- The error messages are the code's own, including the spelling
  "Packages IOExeption" and "repDir does not exist".

## Model

| member | source | states |
|---|---|---|
| Hex.Encode | src/main/java/org/m1theo/apt/repo/utils/Utils.java:45 | the encoding has exactly two characters per digest byte, each a lowercase hex digit |
| Hex.DecodeEncode | src/main/java/org/m1theo/apt/repo/utils/Utils.java:45 | decoding the hex text gives back the digest bytes exactly |
| Hex.EncodeInjective | src/main/java/org/m1theo/apt/repo/utils/Utils.java:45 | two different digests never have the same hex text |
| Digests.Digest | src/main/java/org/m1theo/apt/repo/utils/Utils.java:36-57 | succeeds exactly when the file can be opened and the algorithm is known, with a text of two characters per digest byte; every failure is "could not create digest" |
| Digests.DigestDecodes | src/main/java/org/m1theo/apt/repo/utils/Utils.java:36-49 | the text returned is the digest of the file's whole contents: decoding it gives back exactly that digest |
| Digests.DigestInputStream.Read | src/main/java/org/m1theo/apt/repo/utils/Utils.java:41-44 | returns the next byte and feeds it to the digest, or -1 at the end without feeding anything |
| Digests.GetDigest | src/main/java/org/m1theo/apt/repo/utils/Utils.java:36-57 | the read loop feeds every byte of the file to the digest before encoding, so the result is Digests.Digest |
| Digests.GetDefaultDigests | src/main/java/org/m1theo/apt/repo/utils/Utils.java:66-88 | the loop over the enumeration's values returns, or throws, what Digests.DefaultDigests specifies |
| Digests.DefaultDigestsContents | src/main/java/org/m1theo/apt/repo/utils/Utils.java:66-88 | succeeds exactly when every value's digest succeeds and is one of the four known types; then every listed digest succeeded, and each of the four fields holds its algorithm's digest of the file when the enumeration lists it and stays null otherwise |
| Digests.DefaultDigestsFirstFailure | src/main/java/org/m1theo/apt/repo/utils/Utils.java:68-85 | a failure is the exception of the first value that fails ("could not create digest" or "unknown hash type: <name>"), and all values before it succeed |
| Digests.FillPrefixFails | src/main/java/org/m1theo/apt/repo/utils/Utils.java:68-86 | once a prefix of the values fails, the whole loop fails with that same exception |
| Digests.FillSucceeds | src/main/java/org/m1theo/apt/repo/utils/Utils.java:66-88 | for any digest function, the loop Digests.Fill (which Digests.DefaultDigests runs with getDigest on the file) returns exactly when no value's step throws |
| Digests.FillFields | src/main/java/org/m1theo/apt/repo/utils/Utils.java:70-83 | after a successful loop every listed algorithm's digest succeeded, and each of the four fields holds its algorithm's digest when the values list it and stays null otherwise |
| Digests.FillFirstFailure | src/main/java/org/m1theo/apt/repo/utils/Utils.java:68-85 | a failing loop throws the exception of the first value whose step throws, and every value before it succeeds |
| Digests.StandardDigests | src/main/java/org/m1theo/apt/repo/utils/Utils.java:66-88 | for MD5, SHA-1, SHA-256 and SHA-512: succeeds exactly when the file is readable and the four algorithms are known, and fills all four fields with the file's digests; otherwise fails with "could not create digest" |
| FileSystems.Parent | src/main/java/org/m1theo/apt/repo/builder/RepoBuilder.java:83 | a path has a parent exactly when it has more than one name, and the parent plus the last name is the path |
| FileSystems.FileSystem.CreateDirectory | src/main/java/org/m1theo/apt/repo/builder/RepoBuilder.java:85 | creates the directory exactly when it is missing and its container is a writable directory, and changes nothing else |
| FileSystems.FileSystem.OpenForWrite | src/main/java/org/m1theo/apt/repo/builder/RepoBuilder.java:243-244 | opening for output creates or empties the file when its directory is writable, and otherwise fails with nothing changed |
| FileSystems.FileSystem.Put | src/main/java/org/m1theo/apt/repo/builder/RepoBuilder.java:243-244 | the signer's output written into a stream already opened on the file replaces its contents with exactly those bytes, and nothing else changes |
| FileSystems.FileSystem.WriteFile | src/main/java/org/m1theo/apt/repo/builder/RepoBuilder.java:188-191 | a writer over a new output stream replaces the file with the data, or fails with nothing changed |
| Control.FirstNamed | src/main/java/org/m1theo/apt/repo/builder/RepoBuilder.java:147-148 | finds the first entry with the name, or reports that no entry has it |
| Control.ArchiveInputStream.GetNextEntry | src/main/java/org/m1theo/apt/repo/builder/RepoBuilder.java:147 | yields the entries in order, then null, or an IOException for a broken container |
| Control.FindControl | src/main/java/org/m1theo/apt/repo/builder/RepoBuilder.java:141-183 | the two nested scanning loops, with their breaks and their exits on IOException, give exactly Control.LookupControl |
| Control.LookupControlMeaning | src/main/java/org/m1theo/apt/repo/builder/RepoBuilder.java:147-173 | characterises Control.LookupControl and its inner scan Control.ScanControlArchive by entry positions: content found iff the first control.tar.gz holds a ./control, and it is the first one's data; no control archive iff the archive reads to its end without one; "no control content" iff the first control.tar.gz's tar reads to its end without ./control |
| Control.LaterEntriesIgnored | src/main/java/org/m1theo/apt/repo/builder/RepoBuilder.java:147-173 | the outer scan stops at the first control.tar.gz: later entries, and a read error after them, change nothing |
| Control.LaterControlEntriesIgnored | src/main/java/org/m1theo/apt/repo/builder/RepoBuilder.java:153-164 | the inner scan Control.ScanControlArchive stops at the first ./control in the same way |
| Pipeline.RepoDir | src/main/java/org/m1theo/apt/repo/builder/RepoBuilder.java:81-92 | the directory check passes exactly when the path exists or can be created; only a created directory is added to the filesystem; a failure says "creating repo directory failed" when the container exists and "repDir does not exist" otherwise |
| Pipeline.RepoDirAgrees | src/main/java/org/m1theo/apt/repo/builder/RepoBuilder.java:81-92 | the check as written (Pipeline.RepoDirAsWritten) and the corrected one agree on every existing path and every path of more than one name; for a missing path of at most one name the check as written throws NullPointerException and changes nothing |
| Pipeline.RepoDirSingleNameAsWritten | src/main/java/org/m1theo/apt/repo/builder/RepoBuilder.java:83 | for a missing single-name directory in a writable working directory, the code as written throws NullPointerException where the corrected check creates the directory |
| Pipeline.RepoDirThreeWays | src/main/java/org/m1theo/apt/repo/builder/RepoBuilder.java:82-92 | an existing directory is left as it is; a missing one in a writable directory is created; a missing one whose container does not exist fails with "repDir does not exist" |
| Pipeline.Construct | src/main/java/org/m1theo/apt/repo/builder/RepoBuilder.java:79-96 | construction succeeds exactly when the directory check passes and, when signing, the keyring is a regular file in the resulting filesystem; the filesystem is the one the directory check leaves, so only the repository directory can change; a failed directory check fails with its own exception, and a missing keyring while signing throws NullPointerException |
| Pipeline.KeyringChecked | src/main/java/org/m1theo/apt/repo/builder/RepoBuilder.java:93-96 | when signing and the directory check passes, a keyring that is not a regular file fails construction with "keyring does not exist: <path>", and a directory created by the check stays created |
| Pipeline.Initial | src/main/java/org/m1theo/apt/repo/builder/RepoBuilder.java:93-110 | a new builder works on the given filesystem and repository directory, signs exactly when asked to, and has no packages, no release and no recorded index files; a signing builder keeps the keyring, key id, passphrase, passphrase file and digest it was given; a non-signing one has all five null |
| Pipeline.DigestCode | src/main/java/org/m1theo/apt/repo/builder/RepoBuilder.java:258-278 | succeeds exactly for the eight names, with an OpenPGP tag between 1 and 11; any other name fails with "unknown hash algorithm tag in digestName: <name>" |
| Pipeline.DigestCodeRoundTrip | src/main/java/org/m1theo/apt/repo/builder/RepoBuilder.java:258-278 | names and tags correspond one to one, and the default name SHA256 has tag 8 |
| Pipeline.PackagesInOrder | src/main/java/org/m1theo/apt/repo/builder/RepoBuilder.java:130-184 | a successful index has one entry per registered file, in registration order, each extracted from its file and named after it |
| Pipeline.PackagesFailOnFirst | src/main/java/org/m1theo/apt/repo/builder/RepoBuilder.java:131-184 | a failing index fails with the exception of the first failing file, and every file before it was extracted |
| Pipeline.PackagesFailIff | src/main/java/org/m1theo/apt/repo/builder/RepoBuilder.java:131-184 | the index fails exactly when some registered file fails |
| Pipeline.ExtractEntryName | src/main/java/org/m1theo/apt/repo/builder/RepoBuilder.java:138-139 | an extracted entry's filename is the archive file's name |
| Pipeline.ExtractEntryMeaning | src/main/java/org/m1theo/apt/repo/builder/RepoBuilder.java:132-183 | Pipeline.ExtractEntry succeeds only for a readable archive with the four default algorithms known, and otherwise fails with "could not create digest"; then the entry holds the archive's length, its name and the MD5, SHA-1, SHA-256 and SHA-512 digests of the whole archive; without control.tar.gz it holds only those, with one it also holds the ./control data; a control.tar.gz without ./control fails with "no control content found for: <name>", and a read error with "Packages IOExeption" |
| Pipeline.CollectInOrder | src/main/java/org/m1theo/apt/repo/builder/RepoBuilder.java:131-184 | for any extraction, the for-each loop Pipeline.Collect (which Pipeline.BuildPackages runs with Pipeline.ExtractEntry) yields, on success, one entry per file, the i-th extracted from the i-th file |
| Pipeline.CollectFailsOnFirst | src/main/java/org/m1theo/apt/repo/builder/RepoBuilder.java:131-184 | a failing loop fails with the exception of the first file whose extraction fails, and every file before it was extracted |
| Pipeline.CollectPrefixFails | src/main/java/org/m1theo/apt/repo/builder/RepoBuilder.java:131-184 | once a prefix of the files fails, the whole loop fails with that same exception |
| Pipeline.PackagesPhase | src/main/java/org/m1theo/apt/repo/builder/RepoBuilder.java:128-205 | a failing archive ends the call before anything is written, with builder and filesystem unchanged; success records both index files; only Packages and Packages.gz can change |
| Pipeline.PackagesWritten | src/main/java/org/m1theo/apt/repo/builder/RepoBuilder.java:185-204 | once every archive is extracted, the write block (Pipeline.WritePackages) completes exactly when Packages and Packages.gz can be opened for writing, and otherwise fails with "invalid repodir: <dir>"; Packages is written and recorded before Packages.gz is opened, so it stays recorded when only Packages.gz fails; on success both are readable, and Packages holds the index's text |
| Pipeline.PackagesFilesAgree | src/main/java/org/m1theo/apt/repo/builder/RepoBuilder.java:185-199 | after success, Packages holds the text of the index, and decompressing Packages.gz gives exactly the bytes of Packages |
| Pipeline.ReleasePhase | src/main/java/org/m1theo/apt/repo/builder/RepoBuilder.java:207-230 | the release holds at most the two infos; only Release can change; the settings, packages and index files stay as they were |
| Pipeline.ReleaseListsBothIndexFiles | src/main/java/org/m1theo/apt/repo/builder/RepoBuilder.java:207-230 | a completed release lists Packages, then Packages.gz, each with its length and its four digests, and Release holds the manifest's text |
| Pipeline.ReleaseFailures | src/main/java/org/m1theo/apt/repo/builder/RepoBuilder.java:207-230 | the release phase completes exactly when both index files can be read, the four default algorithms are known and Release can be opened; a failing digest of Packages fails with "could not create digest" and leaves the release empty; one of Packages.gz fails the same way and leaves only the info for Packages; a Release that cannot be opened fails with "Release file got IOException" and leaves both infos; a failure writes nothing |
| Pipeline.ReleaseWritten | src/main/java/org/m1theo/apt/repo/builder/RepoBuilder.java:207-230 | the release phase completes when both index files are readable, the four default digests are known and Release can be opened |
| Pipeline.ResolvePassphrase | src/main/java/org/m1theo/apt/repo/builder/RepoBuilder.java:235-239 | without a passphrase file, the given passphrase is used; with one, the file must be readable and its first line is used |
| Pipeline.SignInto | src/main/java/org/m1theo/apt/repo/builder/RepoBuilder.java:243-244 | writing one signature changes only that file and nothing else in the builder |
| Pipeline.SignWith | src/main/java/org/m1theo/apt/repo/builder/RepoBuilder.java:242-244 | once the key is known, signing changes only Release.gpg and InRelease and nothing else in the builder |
| Pipeline.SignPhase | src/main/java/org/m1theo/apt/repo/builder/RepoBuilder.java:232-256 | signing changes only Release.gpg and InRelease, and keeps the settings, packages and release; the passphrase stays as it was when no passphrase file is configured or it cannot be opened |
| Pipeline.PassphraseFromFile | src/main/java/org/m1theo/apt/repo/builder/RepoBuilder.java:235-239 | a readable passphrase file's first line replaces the passphrase, and the replacement stays even if signing then fails |
| Pipeline.UnknownDigestFailsBeforeWriting | src/main/java/org/m1theo/apt/repo/builder/RepoBuilder.java:242-248 | a digest name outside the eight fails with AptRepoException("aptRepoException") wrapping the unknown-tag error, before any file is written |
| Pipeline.SignaturesCoverRelease | src/main/java/org/m1theo/apt/repo/builder/RepoBuilder.java:235-244 | after success, Release.gpg holds the detached signature and InRelease the clear-signed text, both made with the same key over the same release text; that key holds the keyring's contents, the key id, the resolved passphrase and the digest's tag |
| Pipeline.CreateRun | src/main/java/org/m1theo/apt/repo/builder/RepoBuilder.java:113-119 | create() keeps the builder's settings and registered files |
| Pipeline.CreatePhases | src/main/java/org/m1theo/apt/repo/builder/RepoBuilder.java:113-119 | a failed packages phase ends create(), and when extraction failed nothing at all has changed; otherwise the release phase follows, and the signing phase runs exactly when the builder signs and the release completed; an unsigned build changes only Packages, Packages.gz and Release |
| Pipeline.EmptyRepository | src/test/java/org/m1theo/apt/repo/builder/RepoBuilderTest.java:11-15 | an unsigned builder with no packages completes create() when Packages, Packages.gz and Release can be opened in the repository directory and the four default algorithms are available; Packages holds the empty index's text and the release lists two files |
| Builder.RepoBuilder.Init | src/main/java/org/m1theo/apt/repo/builder/RepoBuilder.java:93-110 | the new builder's state is Pipeline.Initial |
| Builder.RepoBuilder.New | src/main/java/org/m1theo/apt/repo/builder/RepoBuilder.java:79-111 | the private constructor changes the filesystem and fails exactly as Pipeline.Construct says; on success it returns a fresh builder in the state Pipeline.Initial |
| Builder.RepoBuilder.Unsigned | src/main/java/org/m1theo/apt/repo/builder/RepoBuilder.java:64-66 | a builder that does not sign, with all signing fields null; it fails exactly when Pipeline.Construct does, with the same exception ("repDir does not exist: <dir>" or "creating repo directory failed: <dir>"), and leaves the filesystem Pipeline.Construct gives |
| Builder.RepoBuilder.WithPassphrase | src/main/java/org/m1theo/apt/repo/builder/RepoBuilder.java:68-71 | a signing builder with the given passphrase and the default digest SHA256; it fails exactly when Pipeline.Construct does, with the same exception, including "keyring does not exist: <path>", and leaves the filesystem Pipeline.Construct gives |
| Builder.RepoBuilder.WithPassphraseFile | src/main/java/org/m1theo/apt/repo/builder/RepoBuilder.java:73-77 | a signing builder with a passphrase file, no passphrase, and the default digest SHA256; it fails exactly when Pipeline.Construct does, with the same exception, and leaves the filesystem Pipeline.Construct gives |
| Builder.RepoBuilder.Add | src/main/java/org/m1theo/apt/repo/builder/RepoBuilder.java:121-126 | appends the file exactly when it is a regular file, and otherwise fails with "file not found: <path>" and leaves the list as it was; nothing else changes |
| Builder.RepoBuilder.ReadEntry | src/main/java/org/m1theo/apt/repo/builder/RepoBuilder.java:132-183 | one iteration of the extraction loop returns, or throws, what Pipeline.ExtractEntry gives, whose meaning Pipeline.ExtractEntryMeaning states |
| Builder.RepoBuilder.CreatePackagesFile | src/main/java/org/m1theo/apt/repo/builder/RepoBuilder.java:128-205 | outcome and new state are Pipeline.PackagesPhase of the old state |
| Builder.RepoBuilder.WritePackagesFiles | src/main/java/org/m1theo/apt/repo/builder/RepoBuilder.java:185-204 | outcome and new state are Pipeline.WritePackages of the old state and the extracted entries |
| Builder.RepoBuilder.CreateReleaseFile | src/main/java/org/m1theo/apt/repo/builder/RepoBuilder.java:207-230 | outcome and new state are Pipeline.ReleasePhase of the old state |
| Builder.RepoBuilder.Sign | src/main/java/org/m1theo/apt/repo/builder/RepoBuilder.java:232-256 | outcome and new state are Pipeline.SignPhase of the old state |
| Builder.RepoBuilder.WriteSignature | src/main/java/org/m1theo/apt/repo/builder/RepoBuilder.java:243-244 | the output file exists, empty, from the moment it is opened; it holds the signature when signing succeeds and stays empty when the signer throws |
| Builder.RepoBuilder.Create | src/main/java/org/m1theo/apt/repo/builder/RepoBuilder.java:113-119 | outcome and new state are Pipeline.CreateRun of the old state, and the builder stays validly configured |

## Left out

- Hash algorithms, the ar and gzip+tar container formats, gzip compression, `Packages.toString()`, `Release.toString()`, the platform charset, `BufferedReader.readLine()` and the PGP signer are parameters. The model does not look inside them.
- `ControlHandler` is not part of this model. Each entry keeps the raw `./control` bytes that the handler would parse into the package's fields. Decoding those bytes as UTF-8 is not modelled either.
- `Packages`, `PackageEntry`, `Release`, `ReleaseInfo` and `DefaultHashes` are represented only by the values the builder puts into them.
- The `Hashes` enumeration is not part of this model. Its values are taken to be MD5, SHA1, SHA256 and SHA512, with the names "MD5", "SHA-1", "SHA-256" and "SHA-512". The lemmas about `DefaultDigests` hold for any list of values.
- Closing streams is not modelled. Neither is the handle leaked by the `FileInputStream` in `sign()`.
- IOExceptions in the middle of reading a file, or in the middle of writing one after it was opened, are not modelled. As a result, "writing packages failed" is never produced. The same holds for the wrapping of an IOException from reading the passphrase file. The passphrase file fails only when it cannot be opened ("file not found").
- "Packages encoding exception" and "Packages archive exception" are not modelled. The model treats the charset and the archive factory as always available. A decoder reports a broken container only as an IOException while reading entries.
- Permissions are reduced to a writable flag on directories and a readable flag on files. The readable flag of an existing file also decides whether it can be opened for output. A writable file in a read-only directory is not modelled as openable. Paths are sequences of names relative to one root, and the empty path stands for the working directory. Symbolic links and `..` are not modelled.
- Causes that are library exceptions are not modelled. The `AptRepoException` keeps its message, but the cause is dropped for the NoSuchAlgorithmException, FileNotFoundException and IOException of `getDigest`, the FileNotFoundException of the Packages write block, and the IOException, PGPException and GeneralSecurityException of `sign()`. The only cause kept is the AptRepoException of `getDigestCode` inside "aptRepoException".
- Pipeline.WritePackages, Pipeline.ReleasePhase, Pipeline.SignPhase, Builder.RepoBuilder.WritePackagesFiles, Builder.RepoBuilder.CreateReleaseFile, Builder.RepoBuilder.Sign: an empty repository directory stands for the working directory, so the output files are placed there. `java.io.File(File, String)` instead resolves a name against an empty parent at the filesystem root, so the code writes `/Packages` and the other files there. The model has no separate root.
- Java `null` is modelled only where the code meets it. A missing keyring while signing throws `NullPointerException`. A null digest name is looked up as the text "null". Other null arguments, such as a null repository directory or a null file passed to `add`, are not modelled.
- Builder.RepoBuilder.WriteSignature: a signer that throws after writing part of its output is modelled as leaving the file empty. The bytes it may already have written are not modelled.
- Pipeline.Construct, Builder.RepoBuilder.New: use the corrected directory check of the Findings row (Pipeline.RepoDir). For a missing single-name directory they create it where the code throws NullPointerException (Pipeline.RepoDirAsWritten).
- Builder.RepoBuilder.New: a directory creation that fails for reasons other than a missing or read-only container is not modelled. That covers races and a full disk.
- The `createSigning` test builds a builder through a constructor signature that does not exist in the source. It is not modelled.
- Concurrency is not modelled. The builder is used from one thread.

## Findings

| source | as written | input that shows it | evidently intended | confidence | as-written member | corrected member |
|---|---|---|---|---|---|---|
| src/main/java/org/m1theo/apt/repo/builder/RepoBuilder.java:83 | a missing repository directory is created only when `Files.isDirectory(repoPath.getParent())` holds; a relative path of a single name has no parent, so `isDirectory(null)` throws NullPointerException | `new RepoBuilder("repo")` in a writable working directory without `repo` | the directory is created in the working directory, as it is for any path whose container is a writable directory | not executed | Pipeline.RepoDirSingleNameAsWritten | Pipeline.RepoDir |
