/** The runtime file table of the generated programs, `ftc_file_io.c`: a singly linked
    list of (unit id, stream) nodes, head first, searched from the head by `get`, `open`
    and `close`. The list is a sequence of nodes; streams are opaque, and what `fopen`
    returns is a parameter. */
module FileIo {
  import opened Wrappers

  /** A stream as `fopen` hands it out. */
  datatype Handle = Handle(stream: nat)

  /** One list node: the unit id and its stream (`None` for a NULL stream). */
  datatype FileNode = FileNode(id: int, file: Option<Handle>)

  /** The position of the first node with the given id: where the search loops stop. */
  function Find(fs: seq<FileNode>, id: int): (r: Option<nat>)
    ensures r.Some? ==> r.value < |fs| && fs[r.value].id == id
    ensures r.Some? ==> forall j :: 0 <= j < r.value ==> fs[j].id != id
    ensures r.None? <==> forall j :: 0 <= j < |fs| ==> fs[j].id != id
  {
    if fs == [] then None
    else if fs[0].id == id then Some(0)
    else
      var r := Find(fs[1..], id);
      if r.Some? then Some(r.value + 1) else None
  }

  /** The first node with the id is the one the search stops at. */
  lemma FindAt(fs: seq<FileNode>, id: int, k: nat)
    requires k < |fs| && fs[k].id == id && forall j :: 0 <= j < k ==> fs[j].id != id
    ensures Find(fs, id) == Some(k)
  {
    assert Find(fs, id).Some?;
  }

  /** What `ftc__get_file` returns: the stream of the first node with the id, or NULL. */
  function Lookup(fs: seq<FileNode>, id: int): Option<Handle>
  {
    match Find(fs, id)
    case Some(k) => fs[k].file
    case None => None
  }

  /** The list after `ftc__open_file`: the node of the id gets the new stream in place,
      or a new node is put at the head. */
  function Opened(fs: seq<FileNode>, id: int, h: Option<Handle>): seq<FileNode>
  {
    match Find(fs, id)
    case Some(k) => fs[k := FileNode(id, h)]
    case None => [FileNode(id, h)] + fs
  }

  /** The list after `ftc__close_file`: the node of the id is unlinked. */
  function Closed(fs: seq<FileNode>, id: int): seq<FileNode>
  {
    match Find(fs, id)
    case Some(k) => fs[..k] + fs[k + 1..]
    case None => fs
  }

  /** No two nodes share an id. */
  predicate Unique(fs: seq<FileNode>)
  {
    forall i, j :: 0 <= i < j < |fs| ==> fs[i].id != fs[j].id
  }

  class FileTable {
    /** `ftc__files`, head first. */
    var files: seq<FileNode>
    /** The streams handed to `fclose`, in order. */
    var closed: seq<Option<Handle>>

    constructor ()
      ensures files == [] && closed == []
    {
      files := [];
      closed := [];
    }

    /** `ftc__get_file`. */
    method GetFile(id: int) returns (h: Option<Handle>)
      ensures h == Lookup(files, id)
    {
      var cf := 0;
      while cf < |files| && files[cf].id != id
        invariant 0 <= cf <= |files|
        invariant forall j :: 0 <= j < cf ==> files[j].id != id
      {
        cf := cf + 1;
      }
      if cf < |files| {
        assert Find(files, id) == Some(cf);
        h := files[cf].file;
      } else {
        h := None;
      }
    }

    /** `ftc__open_file`; `stream` is what `fopen` returned. */
    method OpenFile(id: int, stream: Option<Handle>)
      modifies this
      ensures files == Opened(old(files), id, stream)
      ensures Find(old(files), id).Some? ==> closed == old(closed) + [old(files)[Find(old(files), id).value].file]
      ensures Find(old(files), id).None? ==> closed == old(closed)
    {
      var cf := 0;
      while cf < |files| && files[cf].id != id
        invariant 0 <= cf <= |files|
        invariant forall j :: 0 <= j < cf ==> files[j].id != id
      {
        cf := cf + 1;
      }
      if cf < |files| {
        assert Find(files, id) == Some(cf);
        closed := closed + [files[cf].file];
        files := files[cf := FileNode(id, stream)];
      } else {
        files := [FileNode(id, stream)] + files;
      }
    }

    /** `ftc__close_file`: `pre` trails `cf` by one node. */
    method CloseFile(id: int)
      modifies this
      ensures files == Closed(old(files), id)
      ensures Find(old(files), id).Some? ==> closed == old(closed) + [old(files)[Find(old(files), id).value].file]
      ensures Find(old(files), id).None? ==> closed == old(closed)
    {
      var cf := 0;
      var pre: Option<nat> := None;
      while cf < |files| && files[cf].id != id
        invariant 0 <= cf <= |files|
        invariant forall j :: 0 <= j < cf ==> files[j].id != id
        invariant pre == (if cf == 0 then None else Some(cf - 1))
      {
        pre := Some(cf);
        cf := cf + 1;
      }
      if cf < |files| {
        assert Find(files, id) == Some(cf);
        var f := files[cf].file;
        if pre.None? {
          files := files[1..];
        } else {
          files := files[..pre.value + 1] + files[cf + 1..];
        }
        closed := closed + [f];
      }
    }
  }

  /** After `open(id, h)`, `get(id)` returns `h`. */
  lemma GetAfterOpen(fs: seq<FileNode>, id: int, h: Option<Handle>)
    ensures Lookup(Opened(fs, id, h), id) == h
  {
    var k := Find(fs, id);
    if k.Some? {
      FindAt(Opened(fs, id, h), id, k.value);
    } else {
      assert Opened(fs, id, h)[0].id == id;
    }
  }

  /** Opening one id leaves what every other id reads unchanged. */
  lemma {:induction false} OpenLeavesOthers(fs: seq<FileNode>, id: int, h: Option<Handle>, other: int)
    requires other != id
    ensures Lookup(Opened(fs, id, h), other) == Lookup(fs, other)
  {
    var fs' := Opened(fs, id, h);
    match Find(fs, other)
    case Some(k) =>
      var k' := if Find(fs, id).Some? then k else k + 1;
      assert forall j :: 0 <= j < k' ==> fs'[j].id != other;
      FindAt(fs', other, k');
    case None =>
      assert Find(fs', other).None?;
  }

  /** Opening an id already present adds no node; opening a new one adds exactly one, at
      the head. */
  lemma OpenSize(fs: seq<FileNode>, id: int, h: Option<Handle>)
    ensures Find(fs, id).Some? ==> |Opened(fs, id, h)| == |fs|
    ensures Find(fs, id).None? ==> Opened(fs, id, h) == [FileNode(id, h)] + fs
  {
  }

  /** Ids stay unique under `open`, which allocates only for an absent id. */
  lemma OpenKeepsUnique(fs: seq<FileNode>, id: int, h: Option<Handle>)
    requires Unique(fs)
    ensures Unique(Opened(fs, id, h))
  {
    var fs' := Opened(fs, id, h);
    if Find(fs, id).None? {
      forall i, j | 0 <= i < j < |fs'| ensures fs'[i].id != fs'[j].id {
        if i > 0 {
          assert fs'[i] == fs[i - 1] && fs'[j] == fs[j - 1];
        } else {
          assert fs'[j] == fs[j - 1];
        }
      }
    }
  }

  /** `close` removes exactly the node of the id: the others keep their order. */
  lemma CloseRemovesOne(fs: seq<FileNode>, id: int)
    ensures Find(fs, id).Some? ==>
      var k := Find(fs, id).value;
      Closed(fs, id) == fs[..k] + fs[k + 1..] && |Closed(fs, id)| == |fs| - 1
    ensures Find(fs, id).None? ==> Closed(fs, id) == fs
  {
  }

  /** Ids stay unique under `close`, and afterwards `get(id)` returns NULL. */
  lemma CloseKeepsUnique(fs: seq<FileNode>, id: int)
    requires Unique(fs)
    ensures Unique(Closed(fs, id))
    ensures Lookup(Closed(fs, id), id) == None
  {
    var fs' := Closed(fs, id);
    match Find(fs, id)
    case None =>
    case Some(k) =>
      assert forall i :: 0 <= i < |fs'| ==> fs'[i] == (if i < k then fs[i] else fs[i + 1]);
      assert forall i :: 0 <= i < |fs'| ==> fs'[i].id != id;
  }

  /** Closing one id leaves what every other id reads unchanged. */
  lemma CloseLeavesOthers(fs: seq<FileNode>, id: int, other: int)
    requires other != id
    ensures Lookup(Closed(fs, id), other) == Lookup(fs, other)
  {
    match Find(fs, id)
    case None =>
    case Some(k) =>
      var fs' := fs[..k] + fs[k + 1..];
      assert |fs'| == |fs| - 1;
      assert forall i :: 0 <= i < |fs'| ==> fs'[i] == (if i < k then fs[i] else fs[i + 1]);
      match Find(fs, other)
      case Some(m) =>
        var m' := if m < k then m else m - 1;
        assert fs'[m'] == fs[m];
        assert forall j :: 0 <= j < m' ==> fs'[j].id != other;
        FindAt(fs', other, m');
      case None =>
        assert forall j :: 0 <= j < |fs'| ==> fs'[j].id != other;
  }
}
