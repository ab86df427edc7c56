/** Downloading one whole file: write to a private partial file, publish it by
    rename only when it is complete (`run_secure_fetch_probe` and
    `PartialFileGuard` in runtime.rs). */
module Fetch {
  import opened Common
  import opened ServerModel
  import opened ServerHistory
  import opened ServerInvariant
  import opened Server
  import opened Service
  import opened Client
  import opened Remote

  type Path = nat

  const BUFFER: nat := 256 * 1024

  /** The directory the output lives in; `operations` counts disk operations so
      that `faults` can let any of them fail. */
  class Disk {
    var files: map<Path, seq<Byte>>
    var operations: nat
    const faults: nat -> bool

    constructor (files: map<Path, seq<Byte>>, faults: nat -> bool)
      ensures this.files == files
    {
      this.files, this.faults, this.operations := files, faults, 0;
    }

    method Works() returns (ok: bool)
      modifies this`operations
      ensures ok == !faults(old(operations)) && operations == old(operations) + 1
    {
      ok := !faults(operations);
      operations := operations + 1;
    }

    /** `create_new`. */
    method CreateNew(path: Path) returns (ok: bool)
      modifies this
      ensures ok <==> path !in old(files) && !faults(old(operations))
      ensures ok ==> files == old(files)[path := []]
      ensures !ok ==> files == old(files)
    {
      ok := Works();
      if path in files {
        return false;
      }
      if ok {
        files := files[path := []];
      }
    }

    /** `write_all`: a failed write may leave part of the data behind, and the
        contract does not say which. */
    method Append(path: Path, bytes: seq<Byte>) returns (ok: bool)
      requires path in files
      modifies this
      ensures ok == !faults(old(operations))
      ensures ok ==> files == old(files)[path := old(files)[path] + bytes]
      ensures !ok ==> path in files && files - {path} == old(files) - {path}
    {
      ok := Works();
      var written := if ok then bytes else bytes[..|bytes| / 2];
      files := files[path := files[path] + written];
    }

    /** `rename`, which replaces an existing target. */
    method Rename(from: Path, to: Path) returns (ok: bool)
      requires from in files
      modifies this
      ensures ok == !faults(old(operations))
      ensures ok ==> files == (old(files) - {from})[to := old(files)[from]]
      ensures !ok ==> files == old(files)
    {
      ok := Works();
      if ok {
        files := (files - {from})[to := files[from]];
      }
    }
  }

  datatype FetchError = OutputExists | DiskFault | SizeDiffers | FromSource(error: Failure)

  /** `PartialFileGuard`: dropping it uncommitted removes the partial file. */
  class PartialFileGuard {
    const disk: Disk
    const path: Path
    var committed: bool

    constructor (disk: Disk, path: Path)
      ensures this.disk == disk && this.path == path && !committed
    {
      this.disk, this.path, committed := disk, path, false;
    }

    method Commit(output: Path) returns (ok: bool)
      requires path in disk.files
      modifies this`committed, disk
      ensures ok == !disk.faults(old(disk.operations))
      ensures ok ==> committed && disk.files == (old(disk.files) - {path})[output := old(disk.files)[path]]
      ensures !ok ==> committed == old(committed) && disk.files == old(disk.files)
    {
      ok := disk.Rename(path, output);
      if ok {
        committed := true;
      }
    }

    /** A failing removal is ignored and leaves the partial file. */
    method Drop()
      modifies disk
      ensures disk.files ==
        if committed || disk.faults(old(disk.operations)) then old(disk.files) else old(disk.files) - {path}
      ensures disk.operations == old(disk.operations) + if committed then 0 else 1
    {
      if !committed {
        var removed := disk.Works();
        if removed {
          disk.files := disk.files - {path};
        }
      }
    }
  }

  /** What the pieces of a file come to; `got` is what came so far. */
  function Drained(x: Reader, peer: Peer, size: nat, got: seq<Byte>): (r: Option<Result<seq<Byte>>>)
    requires Wf(x.wire.s)
    decreases |x.wire.net|
  {
    var (y, piece) := SentRead(x, peer, size, |got|, BUFFER);
    if piece.None? || piece.value.Err? then piece
    else if piece.value.value == [] then Some(Ok(got))
    else Drained(y, peer, size, got + piece.value.value)
  }

  /** No operation of the disk fails. */
  ghost predicate Sound(disk: Disk) {
    forall i: nat :: !disk.faults(i)
  }

  /** The loop is on the way to `goal`. */
  ghost predicate OnTheWay(goal: Option<Result<seq<Byte>>>, x: Reader, peer: Peer, size: nat, got: seq<Byte>, ended: bool)
    requires Wf(x.wire.s)
  {
    goal.Some? ==> goal == if ended then Some(Ok(got)) else Drained(x, peer, size, got)
  }

  lemma OnTheWayNext(goal: Option<Result<seq<Byte>>>, x: Reader, peer: Peer, size: nat, got: seq<Byte>,
                     read: Result<nat>, buffer: seq<Byte>, y: Reader)
    requires Wf(x.wire.s) && Wf(y.wire.s) && OnTheWay(goal, x, peer, size, got, false)
    requires var (z, sent) := SentRead(x, peer, size, |got|, BUFFER);
      sent.Some? ==>
        && read == (if sent.value.Err? then Err(sent.value.error) else Ok(|sent.value.value|))
        && (read.Ok? ==> y == z && read.value <= |buffer| && buffer[..read.value] == sent.value.value)
    ensures goal.Some? && read.Err? ==> goal == Some(Err(read.error))
    ensures read.Ok? && read.value <= |buffer| ==>
      OnTheWay(goal, y, peer, size, if read.value == 0 then got else got + buffer[..read.value], read.value == 0)
  {
    hide SentRead, Wf;
  }

  lemma OnTheWayStart(x: Reader, peer: Peer, size: nat)
    requires Wf(x.wire.s)
    ensures OnTheWay(Drained(x, peer, size, []), x, peer, size, [], false)
  {
    hide Drained, Wf;
  }

  lemma OnTheWayEnd(goal: Option<Result<seq<Byte>>>, x: Reader, peer: Peer, size: nat, got: seq<Byte>)
    requires Wf(x.wire.s) && OnTheWay(goal, x, peer, size, got, true)
    ensures goal.Some? ==> goal == Some(Ok(got))
  {
    hide Drained, Wf;
  }

  lemma FirstBytes(content: seq<Byte>, offset: nat, buffer: seq<Byte>, read: nat)
    requires offset <= |content| && 0 < |buffer| && read <= |buffer| && ReadsFrom(content, offset, |buffer|, buffer[0..0 + read])
    ensures offset + read <= |content| && buffer[..read] == buffer[0..0 + read] == content[offset..offset + read]
    ensures content[..offset] + buffer[..read] == content[..offset + read]
    ensures read == 0 ==> offset == |content|
  {
  }

  /** One read of the loop. */
  method NextPiece(source: RemoteSource, buffer: array<Byte>, offset: nat, ghost goal: Option<Result<seq<Byte>>>)
    returns (piece: Result<nat>)
    requires source.Valid() && offset <= source.size && buffer.Length == BUFFER
    requires Wf(source.client.server.View())
    requires OnTheWay(goal, source.Now(), source.client.peer, source.size, source.Content()[..offset], false)
    modifies source, source.client, source.client.server, buffer
    ensures source.Valid() && Wf(source.client.server.View())
    ensures piece.Ok? ==>
      && piece.value <= BUFFER && offset + piece.value <= source.size
      && source.Content()[..offset] + buffer[..piece.value] == source.Content()[..offset + piece.value]
      && (piece.value == 0 ==> offset == source.size && source.completionSent)
      && source.transfer.Some?
      && OnTheWay(goal, source.Now(), source.client.peer, source.size, source.Content()[..offset + piece.value], piece.value == 0)
    ensures piece.Err? && goal.Some? ==> goal == Some(Err(piece.error))
  {
    hide Inv, Core, Wf, Later, AllDelivered, Known, Normalised, ServerState.View, SentRead, Drained, OnTheWay, ReadsFrom;
    ghost var before, content := source.Now(), source.Content();
    piece := source.ReadAt(offset, buffer, 0);
    InvWf(source.client.server.View());
    if piece.Ok? {
      FirstBytes(content, offset, buffer[..], piece.value);
    }
    OnTheWayNext(goal, before, source.client.peer, source.size, content[..offset], piece, buffer[..], source.Now());
  }

  /** The pieces of the file, appended to the partial file until the source
      reports the end. `goal` is what they come to when every sending is answered. */
  method Drain(source: RemoteSource, disk: Disk, partial: Path, ghost goal: Option<Result<seq<Byte>>>)
    returns (result: Option<FetchError>)
    requires source.Valid() && partial in disk.files && disk.files[partial] == []
    requires Wf(source.client.server.View())
    requires goal == Drained(source.Now(), source.client.peer, source.size, [])
    modifies source, source.client, source.client.server, disk
    ensures source.Valid()
    ensures partial in disk.files && disk.files - {partial} == old(disk.files) - {partial}
    ensures result == None ==>
      && disk.files[partial] == source.Content() && source.completionSent && source.transfer.Some?
      && (goal.Some? ==> goal.value.Ok?)
    ensures goal.Some? && Sound(disk) ==> result == if goal.value.Err? then Some(FromSource(goal.value.error)) else None
  {
    hide Inv, Core, Wf, Later, Known, ServerState.View, Drained, OnTheWay;
    OnTheWayStart(source.Now(), source.client.peer, source.size);
    var buffer := new Byte[BUFFER];
    var offset := 0;
    var ended := false;
    assert source.Content()[..0] == [];
    while !ended
      invariant source.Valid() && 0 <= offset <= source.size && Wf(source.client.server.View())
      invariant partial in disk.files && disk.files - {partial} == old(disk.files) - {partial}
      invariant disk.files[partial] == source.Content()[..offset]
      invariant ended ==> offset == source.size && source.completionSent && source.transfer.Some?
      invariant OnTheWay(goal, source.Now(), source.client.peer, source.size, source.Content()[..offset], ended)
      decreases !ended, source.size - offset
    {
      var read := NextPiece(source, buffer, offset, goal);
      if read.Err? {
        return Some(FromSource(read.error));
      }
      if read.value == 0 {
        ended := true;
      } else {
        var wrote := disk.Append(partial, buffer[..read.value]);
        if !wrote {
          return Some(DiskFault);
        }
        offset := offset + read.value;
      }
    }
    OnTheWayEnd(goal, source.Now(), source.client.peer, source.size, source.Content()[..offset]);
    assert source.Content()[..offset] == source.Content();
    return if offset != source.size then Some(SizeDiffers) else None;
  }

  /** After the loop the partial file is synced. Reading the end has sent the
      completion, so what follows it is a status request; `statusFault` is how
      that fails, if it does. */
  method Download(source: RemoteSource, disk: Disk, partial: Path, statusFault: Option<Failure>) returns (result: Option<FetchError>)
    requires source.Valid() && partial in disk.files && disk.files[partial] == []
    modifies source, source.client, source.client.server, disk
    ensures source.Valid()
    ensures partial in disk.files && disk.files - {partial} == old(disk.files) - {partial}
    ensures result == None ==> statusFault == None && disk.files[partial] == source.Content()
    // The outcome, when every sending is answered and the disk works.
    ensures var drained := Drained(old(source.Now()), source.client.peer, source.size, []);
      drained.Some? && Sound(disk) ==>
        result == if drained.value.Err? then Some(FromSource(drained.value.error))
                  else if statusFault.Some? then Some(FromSource(statusFault.value)) else None
  {
    hide Inv, Core, Wf, Later, Known, ServerState.View, Drained;
    InvWf(source.client.server.View());
    result := Drain(source, disk, partial, Drained(source.Now(), source.client.peer, source.size, []));
    if result != None {
      return;
    }
    var completed := source.Complete(statusFault);
    if completed.Err? {
      return Some(FromSource(completed.error));
    }
    var synced := disk.Works();
    return if synced then None else Some(DiskFault);
  }

  /** Either the output is exactly the offered file and nothing else changed, or
      no file but the partial one changed; that one is gone too unless the disk
      refused its removal. */
  method FetchFile(source: RemoteSource, disk: Disk, output: Path, partial: Path, statusFault: Option<Failure>)
    returns (result: Option<FetchError>)
    requires source.Valid() && partial != output
    modifies source, source.client, source.client.server, disk
    ensures source.Valid()
    ensures result == None ==> output !in old(disk.files) && disk.files == old(disk.files)[output := source.Content()]
    ensures result != None ==>
      || disk.files == old(disk.files)
      || (disk.files - {partial} == old(disk.files) && disk.operations > 0 && disk.faults(disk.operations - 1))
    ensures var drained := Drained(old(source.Now()), source.client.peer, source.size, []);
      drained.Some? && Sound(disk) ==>
        (result == None <==> output !in old(disk.files) && partial !in old(disk.files) && drained.value.Ok? && statusFault == None)
  {
    hide Inv, Core, Wf, Known, ServerState.View, Drained, RemoteSource.Valid, Later, AllDelivered, Sound;
    ghost var before := disk.files;
    if Sound(disk) {
      SoundWorks(disk);
    }
    if output in disk.files {
      return Some(OutputExists);
    }
    var created := disk.CreateNew(partial);
    if !created {
      return Some(DiskFault);
    }
    var guard := new PartialFileGuard(disk, partial);
    result := Download(source, disk, partial, statusFault);
    if result == None {
      var published := guard.Commit(output);
      if !published {
        result := Some(DiskFault);
      }
    }
    guard.Drop();
    if result == None {
      RenamedOut(before, partial, output, disk.files[output]);
    } else {
      WithoutPartial(before, disk.files, partial);
    }
  }

  lemma SoundWorks(disk: Disk)
    requires Sound(disk)
    ensures forall i: nat :: !disk.faults(i)
  {
  }

  lemma RenamedOut(files: map<Path, seq<Byte>>, partial: Path, output: Path, content: seq<Byte>)
    requires partial !in files && partial != output
    ensures (files[partial := content] - {partial})[output := content] == files[output := content]
  {
  }

  lemma WithoutPartial(files: map<Path, seq<Byte>>, after: map<Path, seq<Byte>>, partial: Path)
    requires partial !in files && after - {partial} == files - {partial}
    ensures after - {partial} == files && (partial !in after ==> after == files)
  {
    assert files - {partial} == files;
    assert partial !in after ==> after - {partial} == after;
  }
}
