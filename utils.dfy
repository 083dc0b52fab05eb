/** Utils: the hex-encoded message digest of a file, and the four default
    digests (MD5, SHA-1, SHA-256, SHA-512) of a file. The hash functions
    themselves are a parameter: the model fixes which bytes are hashed and
    how the result is encoded, not the hash. */
module Digests {
  import opened Common
  import opened FileSystems
  import Hex

  /** java.security.MessageDigest as the JVM's providers offer it: the
      algorithm names getInstance accepts, and the digest of a message. */
  datatype Provider = Provider(algorithms: set<string>, hash: (string, Bytes) -> Bytes)

  const CouldNotCreateDigest: string := "could not create digest"

  /** What getDigest(hashType, file) returns or throws: the hex encoding of
      the digest of the file's whole contents; a file that cannot be opened
      and an algorithm no provider knows fail with the same message. */
  function Digest(p: Provider, t: Tree, alg: string, file: Path): (r: Result<string>)
    ensures r.Ok? <==> CanRead(t, file) && alg in p.algorithms
    ensures r.Ok? ==> |r.value| == 2 * |p.hash(alg, t[file].contents)|
    ensures r.Err? ==> r.error == Raise(CouldNotCreateDigest)
  {
    if !CanRead(t, file) then Err(Raise(CouldNotCreateDigest))
    else if alg !in p.algorithms then Err(Raise(CouldNotCreateDigest))
    else
      Ok(Hex.Encode(p.hash(alg, t[file].contents)))
  }

  /** The text is the digest of the file's whole contents: decoding it
      gives that digest back. */
  lemma DigestDecodes(p: Provider, t: Tree, alg: string, file: Path)
    requires Digest(p, t, alg, file).Ok?
    ensures Hex.Decode(Digest(p, t, alg, file).value) == Some(p.hash(alg, t[file].contents))
  {
    Hex.DecodeEncode(p.hash(alg, t[file].contents));
  }

  /** A DigestInputStream over the file's bytes: every byte read is also
      fed to the message digest, whose state is the bytes fed so far. */
  class DigestInputStream {
    const data: Bytes
    var pos: nat
    var fed: Bytes

    constructor (data: Bytes)
      ensures this.data == data && pos == 0 && fed == []
    {
      this.data := data;
      pos := 0;
      fed := [];
    }

    /** read(): the next byte, or -1 at the end of the stream. */
    method Read() returns (ch: int)
      requires pos <= |data|
      modifies this
      ensures old(pos) < |data| ==>
                ch == data[old(pos)] as int && pos == old(pos) + 1 && fed == old(fed) + [data[old(pos)]]
      ensures old(pos) == |data| ==> ch == -1 && pos == old(pos) && fed == old(fed)
    {
      if pos < |data| {
        ch := data[pos] as int;
        fed := fed + [data[pos]];
        pos := pos + 1;
      } else {
        ch := -1;
      }
    }
  }

  /** getDigest: reads the stream until read() returns -1, then encodes the
      digest of everything read. */
  method GetDigest(p: Provider, fs: FileSystem, alg: string, file: Path) returns (r: Result<string>)
    ensures r == Digest(p, fs.tree, alg, file)
  {
    if !CanRead(fs.tree, file) {
      return Err(Raise(CouldNotCreateDigest));
    }
    if alg !in p.algorithms {
      return Err(Raise(CouldNotCreateDigest));
    }
    var dis := new DigestInputStream(fs.tree[file].contents);
    var ch := dis.Read();
    while ch != -1
      invariant dis.pos <= |dis.data|
      invariant dis.fed == dis.data[..dis.pos]
      invariant ch == -1 ==> dis.pos == |dis.data|
      decreases |dis.data| - dis.pos + (if ch == -1 then 0 else 1)
    {
      ch := dis.Read();
    }
    assert dis.fed == fs.tree[file].contents by {
      assert dis.data[..dis.pos] == dis.data;
    }
    return Ok(Hex.Encode(p.hash(alg, dis.fed)));
  }

  /** The values of the Hashes enumeration; Other stands for any value the
      switch of getDefaultDigests does not list. */
  datatype HashType = MD5 | SHA1 | SHA256 | SHA512 | Other(name: string)

  /** Hashes.toString(): the name handed to MessageDigest.getInstance. */
  function NameOf(h: HashType): string
  {
    match h
    case MD5 => "MD5"
    case SHA1 => "SHA-1"
    case SHA256 => "SHA-256"
    case SHA512 => "SHA-512"
    case Other(n) => n
  }

  /** Hashes.values() */
  const HashValues: seq<HashType> := [MD5, SHA1, SHA256, SHA512]

  /** DefaultHashes: one hex digest per default algorithm, null until set. */
  datatype DefaultHashes = DefaultHashes(md5: Option<string>, sha1: Option<string>,
                                         sha256: Option<string>, sha512: Option<string>)

  const NoHashes := DefaultHashes(None, None, None, None)

  /** The switch of getDefaultDigests: calls the setter for `h`, or throws. */
  function Record(d: DefaultHashes, h: HashType, hex: string): Result<DefaultHashes>
  {
    match h
    case MD5 => Ok(d.(md5 := Some(hex)))
    case SHA1 => Ok(d.(sha1 := Some(hex)))
    case SHA256 => Ok(d.(sha256 := Some(hex)))
    case SHA512 => Ok(d.(sha512 := Some(hex)))
    case Other(n) => Err(Raise("unknown hash type: " + n))
  }

  /** The loop of getDefaultDigests over the enumeration's `values`, in
      that order, with `digestOf` standing for getDigest on the file. */
  function Fill(digestOf: string -> Result<string>, values: seq<HashType>): Result<DefaultHashes>
  {
    if values == [] then Ok(NoHashes)
    else
      match Fill(digestOf, values[..|values| - 1])
      case Err(e) => Err(e)
      case Ok(d) =>
        var h := values[|values| - 1];
        match digestOf(NameOf(h))
        case Err(e) => Err(e)
        case Ok(hex) => Record(d, h, hex)
  }

  /** The exception the step for `h` throws, if any. */
  function Failure(digestOf: string -> Result<string>, h: HashType): Option<Exception>
  {
    match digestOf(NameOf(h))
    case Err(e) => Some(e)
    case Ok(_) => if h.Other? then Some(Raise("unknown hash type: " + h.name)) else None
  }

  /** getDigest(_, file) as a function of the algorithm name. */
  function DigestsOf(p: Provider, t: Tree, file: Path): string -> Result<string>
  {
    alg => Digest(p, t, alg, file)
  }

  /** What getDefaultDigests(file) returns or throws when the enumeration
      holds `values`. */
  function DefaultDigests(p: Provider, t: Tree, values: seq<HashType>, file: Path): Result<DefaultHashes>
  {
    Fill(DigestsOf(p, t, file), values)
  }

  /** The exception the step for `h` throws on `file`, if any. */
  function StepFailure(p: Provider, t: Tree, h: HashType, file: Path): Option<Exception>
  {
    Failure(DigestsOf(p, t, file), h)
  }

  lemma {:induction false} FillPrefixFails(digestOf: string -> Result<string>, values: seq<HashType>, k: nat)
    requires k <= |values|
    requires Fill(digestOf, values[..k]).Err?
    ensures Fill(digestOf, values) == Fill(digestOf, values[..k])
    decreases |values| - k
  {
    if k < |values| {
      var n := |values|;
      assert values[..n - 1][..k] == values[..k];
      FillPrefixFails(digestOf, values[..n - 1], k);
    } else {
      assert values[..k] == values;
    }
  }

  /** getDefaultDigests: one getDigest call per value, then the switch. */
  method GetDefaultDigests(p: Provider, fs: FileSystem, values: seq<HashType>, file: Path)
    returns (r: Result<DefaultHashes>)
    ensures r == DefaultDigests(p, fs.tree, values, file)
  {
    var h := NoHashes;
    for i := 0 to |values|
      invariant Fill(DigestsOf(p, fs.tree, file), values[..i]) == Ok(h)
    {
      assert values[..i + 1][..i] == values[..i];
      var hex := GetDigest(p, fs, NameOf(values[i]), file);
      if hex.Err? {
        FillPrefixFails(DigestsOf(p, fs.tree, file), values, i + 1);
        return Err(hex.error);
      }
      match values[i]
      case MD5 => h := h.(md5 := Some(hex.value));
      case SHA1 => h := h.(sha1 := Some(hex.value));
      case SHA256 => h := h.(sha256 := Some(hex.value));
      case SHA512 => h := h.(sha512 := Some(hex.value));
      case Other(n) =>
        FillPrefixFails(DigestsOf(p, fs.tree, file), values, i + 1);
        return Err(Raise("unknown hash type: " + n));
    }
    assert values[..|values|] == values;
    return Ok(h);
  }

  lemma {:induction false} FillSucceeds(digestOf: string -> Result<string>, values: seq<HashType>)
    ensures Fill(digestOf, values).Ok? <==> forall v :: v in values ==> Failure(digestOf, v).None?
  {
    if values != [] {
      var n := |values|;
      var init, last := values[..n - 1], values[n - 1];
      FillSucceeds(digestOf, init);
      assert values == init + [last];
      if Fill(digestOf, init).Err? {
        var v :| v in init && Failure(digestOf, v).Some?;
        assert v in values;
      } else if Failure(digestOf, last).Some? {
        assert last in values;
      } else {
        forall v | v in values
          ensures Failure(digestOf, v).None?
        {
          if v != last {
            assert v in init;
          }
        }
      }
    }
  }

  lemma {:induction false} FillFields(digestOf: string -> Result<string>, values: seq<HashType>)
    requires Fill(digestOf, values).Ok?
    ensures forall v :: v in values ==> digestOf(NameOf(v)).Ok?
    ensures var d := Fill(digestOf, values).value;
            d.md5 == (if MD5 in values then Some(digestOf(NameOf(MD5)).value) else None) &&
            d.sha1 == (if SHA1 in values then Some(digestOf(NameOf(SHA1)).value) else None) &&
            d.sha256 == (if SHA256 in values then Some(digestOf(NameOf(SHA256)).value) else None) &&
            d.sha512 == (if SHA512 in values then Some(digestOf(NameOf(SHA512)).value) else None)
  {
    if values != [] {
      var n := |values|;
      var init, last := values[..n - 1], values[n - 1];
      FillFields(digestOf, init);
      assert values == init + [last];
      assert forall v :: v in values <==> v in init || v == last;
      assert Fill(digestOf, values) == Record(Fill(digestOf, init).value, last, digestOf(NameOf(last)).value);
    }
  }

  lemma {:induction false} FillFirstFailure(digestOf: string -> Result<string>, values: seq<HashType>)
    requires Fill(digestOf, values).Err?
    ensures exists k :: 0 <= k < |values| &&
              (forall j :: 0 <= j < k ==> Failure(digestOf, values[j]).None?) &&
              Failure(digestOf, values[k]) == Some(Fill(digestOf, values).error)
  {
    var n := |values|;
    var init := values[..n - 1];
    var r := Fill(digestOf, values);
    if Fill(digestOf, init).Err? {
      FillFirstFailure(digestOf, init);
      var k :| 0 <= k < |init| &&
               (forall j :: 0 <= j < k ==> Failure(digestOf, init[j]).None?) &&
               Failure(digestOf, init[k]) == Some(Fill(digestOf, init).error);
      forall j | 0 <= j < k
        ensures Failure(digestOf, values[j]).None?
      {
        assert values[j] == init[j];
      }
      assert values[k] == init[k];
    } else {
      FillSucceeds(digestOf, init);
      forall j | 0 <= j < n - 1
        ensures Failure(digestOf, values[j]).None?
      {
        assert values[j] == init[j];
        assert init[j] in init;
      }
      assert Failure(digestOf, values[n - 1]) == Some(r.error);
    }
  }

  /** The call returns exactly when no step throws, and then each default
      field holds the digest of its algorithm if the enumeration lists it and
      stays null otherwise. */
  lemma DefaultDigestsContents(p: Provider, t: Tree, values: seq<HashType>, file: Path)
    ensures DefaultDigests(p, t, values, file).Ok? <==>
            forall v :: v in values ==> StepFailure(p, t, v, file).None?
    ensures DefaultDigests(p, t, values, file).Ok? ==>
            forall v :: v in values ==> Digest(p, t, NameOf(v), file).Ok?
    ensures DefaultDigests(p, t, values, file).Ok? ==>
            var d := DefaultDigests(p, t, values, file).value;
            d.md5 == (if MD5 in values then Some(Digest(p, t, "MD5", file).value) else None) &&
            d.sha1 == (if SHA1 in values then Some(Digest(p, t, "SHA-1", file).value) else None) &&
            d.sha256 == (if SHA256 in values then Some(Digest(p, t, "SHA-256", file).value) else None) &&
            d.sha512 == (if SHA512 in values then Some(Digest(p, t, "SHA-512", file).value) else None)
  {
    FillSucceeds(DigestsOf(p, t, file), values);
    if DefaultDigests(p, t, values, file).Ok? {
      FillFields(DigestsOf(p, t, file), values);
    }
  }

  /** When the call throws, it throws what the first failing step throws:
      every earlier step succeeded. */
  lemma DefaultDigestsFirstFailure(p: Provider, t: Tree, values: seq<HashType>, file: Path)
    requires DefaultDigests(p, t, values, file).Err?
    ensures exists k :: 0 <= k < |values| &&
              (forall j :: 0 <= j < k ==> StepFailure(p, t, values[j], file).None?) &&
              StepFailure(p, t, values[k], file) == Some(DefaultDigests(p, t, values, file).error)
  {
    FillFirstFailure(DigestsOf(p, t, file), values);
  }

  /** With the real enumeration: the call returns exactly when the file can
      be opened and all four algorithm names are known, and then every field
      holds the digest of the matching algorithm; it never throws "unknown
      hash type". */
  lemma StandardDigests(p: Provider, t: Tree, file: Path)
    ensures DefaultDigests(p, t, HashValues, file).Ok? <==>
            CanRead(t, file) && {"MD5", "SHA-1", "SHA-256", "SHA-512"} <= p.algorithms
    ensures DefaultDigests(p, t, HashValues, file) ==
            if CanRead(t, file) && {"MD5", "SHA-1", "SHA-256", "SHA-512"} <= p.algorithms
            then Ok(DefaultHashes(Some(Digest(p, t, "MD5", file).value), Some(Digest(p, t, "SHA-1", file).value),
                                  Some(Digest(p, t, "SHA-256", file).value), Some(Digest(p, t, "SHA-512", file).value)))
            else Err(Raise(CouldNotCreateDigest))
  {
    var r := DefaultDigests(p, t, HashValues, file);
    DefaultDigestsContents(p, t, HashValues, file);
    assert MD5 in HashValues && SHA1 in HashValues && SHA256 in HashValues && SHA512 in HashValues;
    assert forall v :: v in HashValues ==> !v.Other?;
    if r.Err? {
      DefaultDigestsFirstFailure(p, t, HashValues, file);
      var k :| 0 <= k < |HashValues| && StepFailure(p, t, HashValues[k], file) == Some(r.error);
      assert !HashValues[k].Other?;
    }
  }
}
