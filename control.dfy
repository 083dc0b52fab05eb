/** The control lookup of RepoBuilder.createPackagesFile: in a package
    archive ("ar" container) find the first entry named control.tar.gz, and
    inside it (a gzip-compressed tar) the first entry named ./control.
    Containers are taken as already decoded: the entries a decoder yields,
    in stream order, and whether it then hit a read error instead of the end. */
module Control {
  import opened Common

  datatype Entry = Entry(name: string, data: Bytes)

  /** A decoded container: `entries` in stream order; `broken` when the next
      getNextEntry() after them throws an IOException instead of returning
      null. */
  datatype Archive = Archive(entries: seq<Entry>, broken: bool)

  const ControlArchiveName: string := "control.tar.gz"
  const ControlFileName: string := "./control"

  /** How the lookup for one package archive ends. */
  datatype Lookup =
    | NoControlArchive          // no control.tar.gz: the entry keeps only size, name and digests
    | ControlContent(content: Bytes)
    | NoControlContent          // control.tar.gz without ./control
    | ReadFailure               // an IOException while scanning

  /** `i` is the position of the first entry called `name`. */
  ghost predicate IsFirst(es: seq<Entry>, i: int, name: string)
  {
    0 <= i < |es| && es[i].name == name && forall k :: 0 <= k < i ==> es[k].name != name
  }

  /** The position of the first entry called `name`, if any. */
  function FirstNamed(es: seq<Entry>, name: string): (r: Option<nat>)
    ensures r.Some? ==> IsFirst(es, r.value, name)
    ensures r.None? ==> forall k :: 0 <= k < |es| ==> es[k].name != name
  {
    if es == [] then None
    else if es[0].name == name then Some(0)
    else
      match FirstNamed(es[1..], name)
      case None => None
      case Some(i) => Some(i + 1)
  }

  /** The inner scan over the tar entries of control.tar.gz. */
  function ScanControlArchive(tar: Archive): Lookup
  {
    match FirstNamed(tar.entries, ControlFileName)
    case Some(j) => ControlContent(tar.entries[j].data)
    case None => if tar.broken then ReadFailure else NoControlContent
  }

  /** The whole lookup: `tgz` decodes the bytes of a control.tar.gz entry. */
  function LookupControl(tgz: Bytes -> Archive, deb: Archive): Lookup
  {
    match FirstNamed(deb.entries, ControlArchiveName)
    case Some(i) => ScanControlArchive(tgz(deb.entries[i].data))
    case None => if deb.broken then ReadFailure else NoControlArchive
  }

  datatype Next = Next(entry: Entry) | End | Thrown

  /** An ArchiveInputStream over a decoded container. */
  class ArchiveInputStream {
    const archive: Archive
    var pos: nat

    constructor (archive: Archive)
      ensures this.archive == archive && pos == 0
    {
      this.archive := archive;
      pos := 0;
    }

    /** getNextEntry(): the next entry, null at the end, or an IOException. */
    method GetNextEntry() returns (r: Next)
      requires pos <= |archive.entries|
      modifies this
      ensures old(pos) < |archive.entries| ==> r == Next(archive.entries[old(pos)]) && pos == old(pos) + 1
      ensures old(pos) == |archive.entries| ==>
                r == (if archive.broken then Thrown else End) && pos == old(pos)
    {
      if pos < |archive.entries| {
        r := Next(archive.entries[pos]);
        pos := pos + 1;
      } else {
        r := if archive.broken then Thrown else End;
      }
    }
  }

  /** The two nested scanning loops of createPackagesFile, each stopping at
      its first match. */
  method FindControl(tgz: Bytes -> Archive, deb: Archive) returns (r: Lookup)
    ensures r == LookupControl(tgz, deb)
  {
    var debStream := new ArchiveInputStream(deb);
    while true
      invariant debStream.archive == deb && debStream.pos <= |deb.entries|
      invariant forall k :: 0 <= k < debStream.pos ==> deb.entries[k].name != ControlArchiveName
      decreases |deb.entries| - debStream.pos
    {
      var entry := debStream.GetNextEntry();
      if entry.Thrown? {
        return ReadFailure;
      }
      if entry.End? {
        return NoControlArchive;
      }
      if entry.entry.name == ControlArchiveName {
        assert IsFirst(deb.entries, debStream.pos - 1, ControlArchiveName);
        var tar := tgz(entry.entry.data);
        var controlStream := new ArchiveInputStream(tar);
        var content: Option<Bytes> := None;
        while true
          invariant controlStream.archive == tar && controlStream.pos <= |tar.entries|
          invariant forall k :: 0 <= k < controlStream.pos ==> tar.entries[k].name != ControlFileName
          invariant content.None?
          decreases |tar.entries| - controlStream.pos
        {
          var controlEntry := controlStream.GetNextEntry();
          if controlEntry.Thrown? {
            return ReadFailure;
          }
          if controlEntry.End? {
            break;
          }
          if controlEntry.entry.name == ControlFileName {
            assert IsFirst(tar.entries, controlStream.pos - 1, ControlFileName);
            content := Some(controlEntry.entry.data);
            break;
          }
        }
        if content.Some? {
          return ControlContent(content.value);
        } else {
          return NoControlContent;
        }
      }
    }
  }

  /** An independent reading of the lookup: content is found exactly when
      the first control.tar.gz holds a ./control, and it is that entry's
      data; the entry is kept without control data exactly when the archive
      reads to its end without a control.tar.gz; a control.tar.gz without
      ./control is reported exactly when its tar reads to its end. */
  lemma LookupControlMeaning(tgz: Bytes -> Archive, deb: Archive, c: Bytes)
    ensures LookupControl(tgz, deb) == ControlContent(c) <==>
            exists i, j :: IsFirst(deb.entries, i, ControlArchiveName) &&
                           IsFirst(tgz(deb.entries[i].data).entries, j, ControlFileName) &&
                           tgz(deb.entries[i].data).entries[j].data == c
    ensures LookupControl(tgz, deb) == NoControlArchive <==>
            !deb.broken && forall k :: 0 <= k < |deb.entries| ==> deb.entries[k].name != ControlArchiveName
    ensures LookupControl(tgz, deb) == NoControlContent <==>
            exists i :: IsFirst(deb.entries, i, ControlArchiveName) &&
                        !tgz(deb.entries[i].data).broken &&
                        forall k :: 0 <= k < |tgz(deb.entries[i].data).entries| ==>
                          tgz(deb.entries[i].data).entries[k].name != ControlFileName
  {
    forall i, j | IsFirst(deb.entries, i, ControlArchiveName) && IsFirst(deb.entries, j, ControlArchiveName)
      ensures i == j
    {
      FirstIsUnique(deb.entries, i, j, ControlArchiveName);
    }
    match FirstNamed(deb.entries, ControlArchiveName)
    case None =>
    case Some(i) =>
      var tar := tgz(deb.entries[i].data);
      forall j, j' | IsFirst(tar.entries, j, ControlFileName) && IsFirst(tar.entries, j', ControlFileName)
        ensures j == j'
      {
        FirstIsUnique(tar.entries, j, j', ControlFileName);
      }
  }

  lemma FirstIsUnique(es: seq<Entry>, i: int, j: int, name: string)
    requires IsFirst(es, i, name) && IsFirst(es, j, name)
    ensures i == j
  {
  }

  /** A match in a prefix is found whatever follows it. */
  lemma {:induction false} FirstNamedPrefix(es: seq<Entry>, rest: seq<Entry>, name: string)
    requires FirstNamed(es, name).Some?
    ensures FirstNamed(es + rest, name) == FirstNamed(es, name)
  {
    if es[0].name != name {
      assert (es + rest)[1..] == es[1..] + rest;
      FirstNamedPrefix(es[1..], rest, name);
    }
  }

  /** The outer scan stops at the first control.tar.gz: entries after it,
      a second control.tar.gz among them, and a read error after them change
      nothing. */
  lemma LaterEntriesIgnored(tgz: Bytes -> Archive, es: seq<Entry>, rest: seq<Entry>, broken: bool)
    requires exists k :: 0 <= k < |es| && es[k].name == ControlArchiveName
    ensures LookupControl(tgz, Archive(es + rest, broken)) == LookupControl(tgz, Archive(es, false))
  {
    FirstNamedPrefix(es, rest, ControlArchiveName);
    var i := FirstNamed(es, ControlArchiveName).value;
    assert (es + rest)[i] == es[i];
  }

  /** The inner scan stops at the first ./control in the same way. */
  lemma LaterControlEntriesIgnored(es: seq<Entry>, rest: seq<Entry>, broken: bool)
    requires exists k :: 0 <= k < |es| && es[k].name == ControlFileName
    ensures ScanControlArchive(Archive(es + rest, broken)) == ScanControlArchive(Archive(es, false))
  {
    FirstNamedPrefix(es, rest, ControlFileName);
    var j := FirstNamed(es, ControlFileName).value;
    assert (es + rest)[j] == es[j];
  }
}
