/** `send_file` and `receive_file`: loops that tolerate any fragmentation, proved
    against the byte stream of module Wire. */
module Transfer {
  import opened Options
  import opened Files
  import opened Sockets
  import opened CStrings
  import opened Wire

  const SEND_LIMIT := 0x10_0000

  // ------------------------------------------------------------ sending

  method SendAllSync(socket: Socket, data: Bytes)
    modifies socket`outgoing
    ensures socket.outgoing == old(socket.outgoing) + data
  {
    var ptr := 0;
    while ptr < |data|
      invariant 0 <= ptr <= |data|
      invariant socket.outgoing == old(socket.outgoing) + data[..ptr]
    {
      var sent := socket.SendData(data[ptr..]);
      assert data[..ptr + sent] == data[..ptr] + data[ptr..][..sent];
      ptr := ptr + sent;
    }
    assert data[..ptr] == data;
  }

  // One sendfile call of the loop below, of at most SEND_LIMIT bytes.
  method SendSome(socket: Socket, file: Bytes, start: nat, offset: nat, end: nat, ghost before: Bytes)
    returns (newOffset: nat)
    requires start <= offset < end && (offset == start || offset <= |file|)
    requires socket.outgoing == before + Slice(file, start, offset - start)
    modifies socket`outgoing
    ensures offset <= newOffset <= end && (newOffset == offset || newOffset <= |file|)
    ensures newOffset == offset ==> |file| <= offset
    ensures socket.outgoing == before + Slice(file, start, newOffset - start)
  {
    hide Slice;
    var remaining := end - offset;
    var chunk := if remaining > SEND_LIMIT then SEND_LIMIT else remaining;
    newOffset := socket.SendFile(file, offset, chunk);
    Appended(before, file, start, offset - start, newOffset - offset);
  }

  // False when the file ends before `end`; the part it has is sent all the same.
  method SendFileZeroCopy(socket: Socket, file: Bytes, start: nat, end: int) returns (ok: bool)
    modifies socket`outgoing
    ensures ok <==> end <= start || end <= |file|
    ensures socket.outgoing == old(socket.outgoing) + (if end <= start then [] else Slice(file, start, end - start))
    ensures start <= end <= |file| ==> socket.outgoing == old(socket.outgoing) + file[start..end]
    ensures start <= |file| < end ==> socket.outgoing == old(socket.outgoing) + file[start..]
    ensures end <= start || |file| <= start ==> socket.outgoing == old(socket.outgoing)
  {
    PartIs(file, start, end);
    var offset := start;
    while offset < end
      invariant start <= offset && (offset == start || offset <= Min(end, |file|))
      invariant socket.outgoing == old(socket.outgoing) + Slice(file, start, offset - start)
    {
      var newOffset := SendSome(socket, file, start, offset, end, old(socket.outgoing));
      if newOffset <= offset {
        assert Slice(file, start, offset - start) == Slice(file, start, end - start);
        return false;
      }
      offset := newOffset;
    }
    return true;
  }

  // What is announced: the whole file for the default chunk of -1, otherwise the chunk.
  function AnnouncedSize(file: Bytes, chunk: int): int {
    if chunk == -1 then |file| else chunk
  }

  lemma DefaultIsAll(file: Bytes, chunk: int)
    ensures AnnouncedSize(file, -1) == |file| && (chunk != -1 ==> AnnouncedSize(file, chunk) == chunk)
  {
  }

  // What follows the preamble.
  function Payload(file: Bytes, offset: nat, size: int): Bytes {
    if size <= 0 then [] else Slice(file, offset, size)
  }

  method SendFile(socket: Socket, file: Bytes, filename: Bytes, folder: Bytes, offset: nat, chunk: int) returns (ok: bool)
    requires |filename| < Range(4) && |folder| < Range(4)
    requires -(TWO_64 / 2) <= chunk < TWO_64 / 2 && |file| < TWO_64 / 2
    modifies socket`outgoing
    ensures var size := AnnouncedSize(file, chunk);
            && (ok <==> size <= 0 || offset + size <= |file|)
            && Unsigned64(size) >= 0
            && socket.outgoing == old(socket.outgoing) + Preamble(folder, filename, size) + Payload(file, offset, size)
    ensures chunk == -1 && offset == 0 ==>
              ok && socket.outgoing == old(socket.outgoing) + Stream(folder, filename, file)
    ensures chunk >= 0 && offset + chunk <= |file| ==>
              ok && socket.outgoing == old(socket.outgoing) + Stream(folder, filename, file[offset..offset + chunk])
  {
    DefaultIsAll(file, chunk);
    WholeStream(socket.outgoing, file, filename, folder, offset, chunk);
    hide Preamble, Stream, Payload, Slice, Encode;
    var filesize := if chunk == -1 then |file| else chunk;
    SizeFits(filesize);
    Assembled(socket.outgoing, folder, filename, filesize);
    SendAllSync(socket, Encode(|folder|, 4));
    SendAllSync(socket, folder);
    SendAllSync(socket, Encode(|filename|, 4));
    SendAllSync(socket, filename);
    SendAllSync(socket, Encode(Unsigned64(filesize), 8));
    ok := SendFileZeroCopy(socket, file, offset, offset + filesize);
    PayloadIs(file, offset, filesize);
  }

  lemma PayloadIs(file: Bytes, offset: nat, size: int)
    ensures Payload(file, offset, size) == if size <= 0 then [] else Slice(file, offset, size)
  {
  }

  // The preamble as it is sent, part by part.
  lemma {:induction false} Assembled(before: Bytes, folder: Bytes, name: Bytes, size: int)
    requires Unsigned64(size) >= 0
    ensures before + Encode(|folder|, 4) + folder + Encode(|name|, 4) + name + Encode(Unsigned64(size), 8)
            == before + Preamble(folder, name, size)
  {
    hide Encode;
  }

  // A part of the file, and all of it for the default chunk, is what the receiver takes
  // for an acceptable transfer.
  lemma {:induction false} WholeStream(before: Bytes, file: Bytes, name: Bytes, folder: Bytes, offset: nat, chunk: int)
    requires |file| < TWO_64 / 2
    ensures chunk == -1 && offset == 0 ==>
              before + Preamble(folder, name, |file|) + Payload(file, 0, |file|) == before + Stream(folder, name, file)
    ensures chunk >= 0 && offset + chunk <= |file| ==>
              before + Preamble(folder, name, chunk) + Payload(file, offset, chunk)
              == before + Stream(folder, name, file[offset..offset + chunk])
  {
    hide Preamble;
    if chunk == -1 && offset == 0 {
      PayloadIsPart(file, 0, |file|);
      assert file[0..|file|] == file;
      ConcatAssoc(before, Preamble(folder, name, |file|), file);
    } else if chunk >= 0 && offset + chunk <= |file| {
      PayloadIsPart(file, offset, chunk);
      ConcatAssoc(before, Preamble(folder, name, chunk), file[offset..offset + chunk]);
    }
  }

  lemma {:induction false} PayloadIsPart(file: Bytes, offset: nat, chunk: nat)
    requires offset + chunk <= |file|
    ensures Payload(file, offset, chunk) == file[offset..offset + chunk]
  {
  }

  // ------------------------------------------------------------ receiving

  // Fills the first `len` bytes of the buffer, or fails when the stream ends first.
  method RecvAll(socket: Socket, buf: array<byte>, len: nat) returns (ok: bool)
    requires len <= buf.Length
    modifies socket`incoming, buf
    ensures ok <==> len <= |old(socket.incoming)|
    ensures ok ==> buf[..len] == old(socket.incoming)[..len] && socket.incoming == old(socket.incoming)[len..]
  {
    ghost var stream := socket.incoming;
    var ptr := 0;
    while ptr < len
      invariant 0 <= ptr <= len
      invariant stream == buf[..ptr] + socket.incoming
    {
      var data := socket.Receive(len - ptr);
      if data == [] {
        return false;
      }
      Store(buf, ptr, data);
      ptr := ptr + |data|;
    }
    assert stream[..len] == buf[..len];
    return true;
  }

  // What the kernel does with the address that recv is given.
  method Store(buf: array<byte>, ptr: nat, data: Bytes)
    requires ptr + |data| <= buf.Length
    modifies buf
    ensures buf[..ptr + |data|] == old(buf[..ptr]) + data
  {
    for k := 0 to |data|
      invariant buf[..ptr] == old(buf[..ptr])
      invariant buf[ptr..ptr + k] == data[..k]
    {
      buf[ptr + k] := data[k];
    }
    assert data[..|data|] == data;
    assert buf[..ptr + |data|] == buf[..ptr] + buf[ptr..ptr + |data|];
  }

  // A length and that many bytes: how the folder and then the file name are read.
  method ReceiveField(socket: Socket) returns (r: Option<Bytes>)
    modifies socket`incoming
    ensures r.Some? <==> TakeField(old(socket.incoming)).Some?
    ensures r.Some? ==> TakeField(old(socket.incoming)) == Some((r.value, socket.incoming))
    ensures r.Some? ==> 0 < |r.value| < 256 && old(socket.incoming) == old(socket.incoming)[..4] + r.value + socket.incoming
  {
    ghost var stream := socket.incoming;
    FieldIs(stream);
    var lenBuffer := new byte[4];
    var ok := RecvAll(socket, lenBuffer, 4);
    if !ok {
      return None;
    }
    var len := Decode(lenBuffer[..4]);
    if len == 0 || len >= NAME_SIZE {
      return None;
    }
    var buffer := new byte[NAME_SIZE];
    ok := RecvAll(socket, buffer, len);
    if !ok {
      return None;
    }
    assert stream[4..][..len] == stream[4..4 + len] && stream[4..][len..] == stream[4 + len..];
    return Some(buffer[..len]);
  }

  const SUCCESS := Ascii("Success")

  lemma ReplyText()
    ensures SUCCESS == [83, 117, 99, 99, 101, 115, 115]
  {
  }

  // What the connections of one worker process share.
  class WorkerProcess {
    var fileSize: int        // Shared_fileSize
    var processedBytes: int
    var flag1: bool          // mesh_info_1.flag
    var flag2: bool          // mesh_info_2.flag
    var disk: map<Bytes, Bytes>

    constructor ()
      ensures fileSize == 0 && processedBytes == 0 && !flag1 && !flag2 && disk == map[]
    {
      fileSize, processedBytes, flag1, flag2, disk := 0, 0, false, false, map[];
    }
  }

  // The file as the receiver leaves it: as much of the announced size as arrived.
  function Arrived(h: Header, rest: Bytes): Bytes {
    rest[..Min(h.size, |rest|)]
  }

  // The loop over the contents: append, count, publish.
  method ReceiveContents(socket: Socket, worker: WorkerProcess, h: Header) returns (ok: bool)
    requires h.path in worker.disk && worker.disk[h.path] == []
    requires h.folder == TRAIN ==> worker.processedBytes == 0
    modifies socket`incoming, worker`disk, worker`processedBytes
    ensures ok <==> h.size <= |old(socket.incoming)|
    ensures worker.disk == old(worker.disk)[h.path := Arrived(h, old(socket.incoming))]
    ensures worker.disk[h.path] == if ok then old(socket.incoming)[..h.size] else old(socket.incoming)
    ensures ok ==> socket.incoming == old(socket.incoming)[h.size..]
    ensures worker.processedBytes ==
            if h.folder == TRAIN then |Arrived(h, old(socket.incoming))| else old(worker.processedBytes)
  {
    ghost var stream := socket.incoming;
    var received := 0;
    assert old(worker.disk)[h.path := []] == old(worker.disk);
    while received < h.size
      invariant 0 <= received <= h.size && received <= |stream|
      invariant stream[received..] == socket.incoming
      invariant worker.disk == old(worker.disk)[h.path := stream[..received]]
      invariant worker.processedBytes == if h.folder == TRAIN then received else old(worker.processedBytes)
    {
      var need := h.size - received;
      if need > BLOCK_SIZE {
        need := BLOCK_SIZE;
      }
      var data := socket.Receive(need);
      if data == [] {
        return false;
      }
      assert stream[..received + |data|] == stream[..received] + data;
      worker.disk := worker.disk[h.path := worker.disk[h.path] + data];
      received := received + |data|;
      if h.folder == TRAIN {
        worker.processedBytes := received;
      }
    }
    return true;
  }

  lemma ParseFails(stream: Bytes)
    ensures TakeField(stream).None? ==> Parse(stream).Malformed?
    ensures TakeField(stream).Some? && TakeField(TakeField(stream).value.1).None? ==>
              Parse(stream).Malformed?
  {
  }

  lemma ParseReads(stream: Bytes, rawFolder: Bytes, afterFolder: Bytes, rawName: Bytes, afterName: Bytes)
    requires TakeField(stream) == Some((rawFolder, afterFolder)) && TakeField(afterFolder) == Some((rawName, afterName))
    ensures |afterName| < 8 ==> Parse(stream).Malformed?
    ensures |afterName| >= 8 ==>
              var folder, base := CString(rawFolder, 0), BaseName(CString(rawName, 0));
              var size := Decode(afterName[..8]);
              Parse(stream) ==
              if HasDotDot(folder) || |OutPath(folder, base)| >= PATH_SIZE || !NamesFile(base) then Refused(folder, size)
              else Accepted(Header(folder, OutPath(folder, base), size), afterName[8..])
  {
  }

  method ReceiveFile(socket: Socket, worker: WorkerProcess) returns (status: int)
    modifies socket, worker
    ensures Parse(old(socket.incoming)).Malformed? ==> status == -1 && unchanged(worker)
    ensures Parse(old(socket.incoming)).Refused? ==>
              var p := Parse(old(socket.incoming));
              && status == -1
              && unchanged(worker`disk, worker`flag1, worker`flag2)
              && worker.fileSize == (if p.folder == TRAIN then Signed64(p.size) else old(worker.fileSize))
              && worker.processedBytes == (if p.folder == TRAIN then 0 else old(worker.processedBytes))
    ensures Parse(old(socket.incoming)).Accepted? ==>
              var p := Parse(old(socket.incoming));
              var complete := p.header.size <= |p.rest|;
              && status == (if complete then 0 else -1)
              && worker.disk == old(worker.disk)[p.header.path := Arrived(p.header, p.rest)]
              && worker.fileSize == (if p.header.folder == TRAIN then Signed64(p.header.size) else old(worker.fileSize))
              && worker.processedBytes ==
                 (if p.header.folder == TRAIN then |Arrived(p.header, p.rest)| else old(worker.processedBytes))
              && worker.flag1 == (old(worker.flag1) || (p.header.folder == CODE && complete))
              && worker.flag2 == (old(worker.flag2) || p.header.folder == TRAIN)
              && (complete ==> socket.outgoing == old(socket.outgoing) + SUCCESS
                               && socket.incoming == p.rest[p.header.size..])
  {
    hide CString, BaseName, HasDotDot, Decode, TakeField, Arrived, Parse, OutPath, NamesFile, Signed64;
    ghost var stream := socket.incoming;
    ParseFails(stream);
    status := -1;
    var rawFolder := ReceiveField(socket);
    if rawFolder.None? {
      return;
    }
    ghost var afterFolder := socket.incoming;
    var rawName := ReceiveField(socket);
    if rawName.None? {
      return;
    }
    ParseReads(stream, rawFolder.value, afterFolder, rawName.value, socket.incoming);
    var sizeBuffer := new byte[8];
    var ok := RecvAll(socket, sizeBuffer, 8);
    if !ok {
      return;
    }
    var folder := CString(rawFolder.value, 0);
    var filename := CString(rawName.value, 0);
    var filesize := Decode(sizeBuffer[..8]);
    if folder == TRAIN {
      worker.fileSize := Signed64(filesize);
      worker.processedBytes := 0;
    }
    if HasDotDot(folder) {
      return;
    }
    var path := OutPath(folder, BaseName(filename));
    if |path| >= PATH_SIZE {
      return;
    }
    if !NamesFile(BaseName(filename)) {
      return;  // open fails
    }
    var h := Header(folder, path, filesize);
    worker.disk := worker.disk[path := []];
    if folder == TRAIN {
      worker.flag2 := true;
    }
    ok := ReceiveContents(socket, worker, h);
    if !ok {
      return;
    }
    if folder == CODE {
      worker.flag1 := true;
    }
    SendReply(socket, SUCCESS);
    return 0;
  }

  // A short reply, taken to be accepted by one send.
  method SendReply(socket: Socket, text: Bytes)
    modifies socket`outgoing
    ensures socket.outgoing == old(socket.outgoing) + text
  {
    socket.outgoing := socket.outgoing + text;
  }

  // The two ends together: for every fragmentation on either side, an acceptable
  // transfer of a part of a file leaves exactly that part under the folder and the base
  // name, whatever bytes follow on the connection. The default chunk of -1 is all of it.
  method SendAndReceive(
    file: Bytes, filename: Bytes, folder: Bytes, offset: nat, chunk: int, trailing: Bytes, worker: WorkerProcess)
    returns (status: int, ghost part: Bytes)
    requires (chunk == -1 && offset == 0) || (0 <= chunk && offset + chunk <= |file|)
    requires Acceptable(folder, filename, if chunk == -1 then |file| else chunk) && |file| < TWO_64 / 2
    modifies worker
    ensures status == 0
    ensures part == if chunk == -1 then file else file[offset..offset + chunk]
    ensures worker.disk == old(worker.disk)[OutPath(folder, BaseName(filename)) := part]
    ensures forall dir: Bytes, base: Bytes ::
              filename == dir + [47] + base && (forall i :: 0 <= i < |base| ==> base[i] != 47) ==>
              worker.disk == old(worker.disk)[ROOT + folder + [47] + base := part]
    ensures (forall i :: 0 <= i < |filename| ==> filename[i] != 47) ==>
              worker.disk == old(worker.disk)[ROOT + folder + [47] + filename := part]
    ensures folder == TRAIN ==> worker.fileSize == worker.processedBytes == |part| && worker.flag2
    ensures folder == CODE ==> worker.flag1
  {
    hide Parse, Stream, GoodPath, BaseName, OutPath;
    part := if chunk == -1 then file else file[offset..offset + chunk];
    var stream := SendPart(file, filename, folder, offset, chunk);
    StreamIsRead(folder, filename, part, trailing);
    var receiver := new Socket(stream + trailing);
    status := ReceiveFile(receiver, worker);
    assert (part + trailing)[..|part|] == part;
    PathIs(folder, filename);
  }

  lemma {:induction false} PathIs(folder: Bytes, filename: Bytes)
    ensures forall dir: Bytes, base: Bytes ::
              filename == dir + [47] + base && (forall i :: 0 <= i < |base| ==> base[i] != 47) ==>
              OutPath(folder, BaseName(filename)) == ROOT + folder + [47] + base
    ensures (forall i :: 0 <= i < |filename| ==> filename[i] != 47) ==>
              OutPath(folder, BaseName(filename)) == ROOT + folder + [47] + filename
  {
    hide BaseName;
    forall dir: Bytes, base: Bytes |
      filename == dir + [47] + base && (forall i :: 0 <= i < |base| ==> base[i] != 47)
      ensures OutPath(folder, BaseName(filename)) == ROOT + folder + [47] + base
    {
      BaseNameIs(dir, base);
    }
    if forall i :: 0 <= i < |filename| ==> filename[i] != 47 {
      BaseNameIs([], filename);
    }
  }

  // The sender's end, on a connection of its own.
  method SendPart(file: Bytes, filename: Bytes, folder: Bytes, offset: nat, chunk: int) returns (stream: Bytes)
    requires (chunk == -1 && offset == 0) || (0 <= chunk && offset + chunk <= |file|)
    requires |filename| < NAME_SIZE && |folder| < NAME_SIZE && |file| < TWO_64 / 2
    ensures stream == Stream(folder, filename, if chunk == -1 then file else file[offset..offset + chunk])
  {
    hide Stream;
    NameFits();
    var sender := new Socket([]);
    var ok := SendFile(sender, file, filename, folder, offset, chunk);
    stream := sender.outgoing;
    Alone(Stream(folder, filename, if chunk == -1 then file else file[offset..offset + chunk]));
  }

  lemma Alone(s: Bytes)
    ensures [] + s == s
  {
  }
}
