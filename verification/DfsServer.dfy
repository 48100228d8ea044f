/** The file server's write lock and the calls that take it, one call at a time. */
module DfsServer {
  import opened Collections
  import opened Words
  import opened Crc
  import opened CrcTable
  import opened CrcTheorems
  import opened FileChecksum

  datatype Status = Ok | DeadlineExceeded | AlreadyExists | ResourceExhausted | Cancelled | NotFound

  /** One message of a StoreFile stream; `size` is always the length of the content. */
  datatype FileMessage = FileMessage(name: string, clientId: string, crc: Word, content: seq<Byte>)

  type WriteMap = map<string, string>
  type Files = map<string, seq<Byte>>

  /** BUFSIZ */
  const BUFSIZ: nat := 8192

  /** `write_map[name]`, which adds an empty entry for a name it does not know. */
  function Owner(writeMap: WriteMap, name: string): (client: string) {
    if name in writeMap then writeMap[name] else ""
  }

  /** The client may take the lock, or has it. */
  predicate MayWrite(writeMap: WriteMap, client: string, name: string) {
    Owner(writeMap, name) == "" || Owner(writeMap, name) == client
  }

  /** The map after `CheckLock`. */
  function Locked(writeMap: WriteMap, client: string, name: string): (after: WriteMap) {
    if MayWrite(writeMap, client, name) then writeMap[name := client] else writeMap
  }

  function Released(writeMap: WriteMap, name: string): (after: WriteMap) {
    writeMap[name := ""]
  }

  /** A file of the mount directory as `dfs_file_checksum` meets it. */
  function OnDisk(files: Files, name: string): (file: File) {
    if name in files then Local(files[name]) else File(false, [], false, 0)
  }

  function Local(content: seq<Byte>): (file: File) {
    File(true, content, true, |content|)
  }

  function Concat(messages: seq<FileMessage>): (data: seq<Byte>) {
    if messages == [] then [] else messages[0].content + Concat(messages[1..])
  }

  /** The first message read; an empty stream leaves the message in its initial state. */
  function First(reader: seq<FileMessage>): (m: FileMessage) {
    if reader == [] then FileMessage("", "", Zeros(32), []) else reader[0]
  }

  function Last(reader: seq<FileMessage>): (m: FileMessage) {
    if reader == [] then First(reader) else reader[|reader| - 1]
  }

  class Server {
    var writeMap: WriteMap
    var files: Files
    const crcTable: Table

    ghost predicate Valid()
      reads this, crcTable.table
    {
      crcTable.Valid() && crcTable.parameters == CRC_32
    }

    constructor (files: Files)
      ensures Valid() && writeMap == map[] && this.files == files
    {
      Crc32Valid();
      this.writeMap, this.files := map[], files;
      crcTable := new Table(CRC_32);
    }

    method CheckLock(clientId: string, name: string) returns (status: Status)
      modifies this`writeMap
      ensures status == if MayWrite(old(writeMap), clientId, name) then Ok else ResourceExhausted
      ensures status == Ok ==> Owner(writeMap, name) == clientId
      ensures forall n :: n != name || status != Ok ==> Owner(writeMap, n) == Owner(old(writeMap), n)
      ensures forall n :: Owner(writeMap, n) == Owner(Locked(old(writeMap), clientId, name), n)
    {
      if name !in writeMap {
        writeMap := writeMap[name := ""];
      }
      if writeMap[name] == "" {
        writeMap := writeMap[name := clientId];
        return Ok;
      } else if writeMap[name] != clientId {
        return ResourceExhausted;
      } else {
        return Ok;
      }
    }

    method ReleaseLock(name: string)
      modifies this`writeMap
      ensures Owner(writeMap, name) == ""
      ensures forall n :: n != name ==> Owner(writeMap, n) == Owner(old(writeMap), n)
    {
      writeMap := writeMap[name := ""];
    }

    method WriteLock(cancelled: bool, clientId: string, name: string) returns (status: Status)
      modifies this`writeMap
      ensures status == if cancelled then DeadlineExceeded
                        else if MayWrite(old(writeMap), clientId, name) then Ok else ResourceExhausted
      ensures status == Ok ==> Owner(writeMap, name) == clientId
      ensures forall n :: n != name || status != Ok ==> Owner(writeMap, n) == Owner(old(writeMap), n)
    {
      if cancelled {
        return DeadlineExceeded;
      }
      status := CheckLock(clientId, name);
    }

    /** The stream is `reader`; `opens` says whether the file can be opened for writing. The lock is released under
    the name of the last message read. */
    method StoreFile(cancelled: bool, reader: seq<FileMessage>, opens: bool) returns (status: Status)
      requires Valid()
      modifies this
      ensures Valid()
      ensures status == DeadlineExceeded <==> cancelled
      ensures status == ResourceExhausted <==>
                !cancelled && !MayWrite(old(writeMap), First(reader).clientId, First(reader).name)
      ensures var granted := !cancelled && MayWrite(old(writeMap), First(reader).clientId, First(reader).name);
              var same := First(reader).crc == Checksum(OnDisk(old(files), First(reader).name));
              && (status == AlreadyExists <==> granted && same)
              && (status == Cancelled <==> granted && !same && !opens)
              && (status == Ok <==> granted && !same && opens)
      ensures files == if status == Ok then old(files)[First(reader).name := Concat(reader)] else old(files)
      ensures forall n :: Owner(writeMap, n) ==
                if n == Last(reader).name && status == Ok then ""
                else if n == First(reader).name && status in {AlreadyExists, Cancelled} then ""
                else if n == First(reader).name && status == Ok then First(reader).clientId
                else Owner(old(writeMap), n)
    {
      hide Checksum;
      if cancelled {
        return DeadlineExceeded;
      }
      var file := First(reader);
      var lockStatus := CheckLock(file.clientId, file.name);
      if lockStatus != Ok {
        return ResourceExhausted;
      }
      var crc := DfsFileChecksum(OnDisk(files, file.name), crcTable);
      if file.crc == crc {
        ReleaseLock(file.name);
        return AlreadyExists;
      }
      if !opens {
        ReleaseLock(file.name);
        return Cancelled;
      }
      file := WriteChunks(file, reader);
      ReleaseLock(file.name);
      return Ok;
    }

    /** Opening the file for writing and the loop over the rest of the stream; the last message read is left. */
    method WriteChunks(first: FileMessage, reader: seq<FileMessage>) returns (file: FileMessage)
      requires first == First(reader)
      modifies this`files
      ensures file == Last(reader)
      ensures files == old(files)[first.name := Concat(reader)]
    {
      file := first;
      var outfile := first.name;
      files := files[outfile := []];
      files := files[outfile := files[outfile] + file.content];
      ConcatFirst(reader);
      hide Concat;
      var i := 1;
      while i < |reader|
        invariant reader != [] ==> 1 <= i <= |reader| && file == reader[i - 1]
        invariant reader == [] ==> file == first
        invariant files == old(files)[outfile := Concat(if reader == [] then [] else reader[..i])]
      {
        file := reader[i];
        ConcatAppend(reader[..i], file);
        assert reader[..i] + [file] == reader[..i + 1];
        files := files[outfile := files[outfile] + file.content];
        i := i + 1;
      }
      assert reader != [] ==> reader[..i] == reader;
    }

    method DeleteFile(cancelled: bool, clientId: string, name: string) returns (status: Status)
      modifies this
      ensures status == if cancelled then DeadlineExceeded
                        else if name !in old(files) then NotFound
                        else if MayWrite(old(writeMap), clientId, name) then Ok else ResourceExhausted
      ensures files == if status == Ok then old(files) - {name} else old(files)
      ensures forall n :: Owner(writeMap, n) == if n == name && status == Ok then "" else Owner(old(writeMap), n)
    {
      if cancelled {
        return DeadlineExceeded;
      }
      if name !in files {
        return NotFound;
      }
      var lockStatus := CheckLock(clientId, name);
      if lockStatus != Ok {
        return ResourceExhausted;
      }
      files := files - {name};
      ReleaseLock(name);
      return Ok;
    }
  }

  /** What the deadline of a call does: nothing, or it expires before the server's method begins, which then refuses, or
  when the method is over. */
  datatype Expiry = InTime | BeforeCall | AfterCall

  /** The same for a stream, where it may also expire when so many messages were read; the server takes that for the end
  of the stream. */
  datatype StreamExpiry = StreamInTime | StreamUnseen | StreamCut(received: nat)

  /** The messages the server reads. */
  function Arriving(messages: seq<FileMessage>, expiry: StreamExpiry): (m: seq<FileMessage>) {
    if expiry.StreamCut? then messages[..Min(expiry.received, |messages|)] else messages
  }

  class Client {
    const clientId: string

    constructor (clientId: string)
      ensures this.clientId == clientId
    {
      this.clientId := clientId;
    }

    /** A call that expires when the server is done leaves the lock with a client that does not know it. */
    method RequestWriteAccess(server: Server, filename: string, expiry: Expiry) returns (status: Status)
      modifies server`writeMap
      ensures var granted := expiry != BeforeCall && MayWrite(old(server.writeMap), clientId, filename);
              && status == (if expiry != InTime then DeadlineExceeded else if granted then Ok else ResourceExhausted)
              && (granted ==> Owner(server.writeMap, filename) == clientId)
              && forall n :: n != filename || !granted ==> Owner(server.writeMap, n) == Owner(old(server.writeMap), n)
    {
      status := server.WriteLock(expiry == BeforeCall, clientId, filename);
      if expiry == AfterCall {
        status := DeadlineExceeded;
      }
      if status !in {Ok, DeadlineExceeded, ResourceExhausted} {
        status := Cancelled;
      }
    }

    /** The stream of a file: reads of BUFSIZ bytes until one comes back short. */
    method Messages(filename: string, crc: Word, content: seq<Byte>) returns (messages: seq<FileMessage>)
      ensures messages != [] && Concat(messages) == content
      ensures forall k :: 0 <= k < |messages| ==>
                messages[k].name == filename && messages[k].clientId == clientId && messages[k].crc == crc
      ensures forall k :: 0 <= k < |messages| ==>
                if k < |messages| - 1 then |messages[k].content| == 8192 else |messages[k].content| < 8192
      ensures forall k :: 0 <= k <= |messages| ==> Concat(messages[..k]) == content[..Min(k * 8192, |content|)]
    {
      messages := [];
      var position, eof := 0, false;
      while !eof
        invariant position <= |content| && Concat(messages) == content[..position]
        invariant eof ==> messages != [] && position == |content|
        invariant position == Min(|messages| * BUFSIZ, |content|)
        invariant forall k :: 0 <= k < |messages| ==>
                    messages[k].name == filename && messages[k].clientId == clientId && messages[k].crc == crc
        invariant forall k :: 0 <= k < |messages| ==>
                    if eof && k == |messages| - 1 then |messages[k].content| < BUFSIZ
                    else |messages[k].content| == BUFSIZ
        invariant forall k :: 0 <= k <= |messages| ==> Concat(messages[..k]) == content[..Min(k * BUFSIZ, |content|)]
        decreases !eof, |content| - position
      {
        var next := if position + BUFSIZ <= |content| then position + BUFSIZ else |content|;
        var m := FileMessage(filename, clientId, crc, content[position..next]);
        ConcatAppend(messages, m);
        ghost var before := messages;
        messages := messages + [m];
        assert content[..position] + content[position..next] == content[..next];
        Prefixes(before, m, content);
        eof := next - position < BUFSIZ;
        position := next;
      }
      assert messages[..|messages|] == messages;
    }

    /** Storing a local file; `content` is None if it cannot be opened. A Store that got the lock leaves it free, unless
    its stream expires before the first message arrives; one that expires later leaves the part of the file that did. */
    method Store(server: Server, filename: string, content: Option<seq<Byte>>, opens: bool, locking: Expiry,
                 sending: StreamExpiry)
      returns (status: Status)
      requires server.Valid()
      modifies server
      ensures server.Valid()
      ensures var old_ := old(server.writeMap);
              var asked := content.Some? && locking != BeforeCall && MayWrite(old_, clientId, filename);
              var sent := asked && locking == InTime && sending != StreamUnseen;
              && (content == None ==> status == Cancelled)
              && (content.Some? && locking == InTime && !asked ==> status == ResourceExhausted)
              && (content.Some? && (locking != InTime || (asked && sending != StreamInTime)) ==>
                    status == DeadlineExceeded)
              && (sent && sending == StreamInTime ==>
                    status == if Checksum(Local(content.value)) == Checksum(OnDisk(old(server.files), filename))
                              then AlreadyExists else if opens then Ok else Cancelled)
              && (asked && !sent ==> Owner(server.writeMap, filename) == clientId)
              && (sent && (sending.StreamCut? ==> sending.received > 0) ==> Owner(server.writeMap, filename) == "")
              && (sent && sending == StreamCut(0) && filename != "" ==> Owner(server.writeMap, filename) == clientId)
              && (!asked ==> Owner(server.writeMap, filename) == Owner(old_, filename))
              && (forall n :: n != filename && (sending == StreamCut(0) ==> n != "") ==>
                    Owner(server.writeMap, n) == Owner(old_, n))
      ensures status == Ok ==> server.files == old(server.files)[filename := content.value]
      ensures content == None || status in {AlreadyExists, ResourceExhausted, Cancelled} ==>
                server.files == old(server.files)
      ensures status == DeadlineExceeded ==>
                || server.files == old(server.files)
                || (sending.StreamCut? && sending.received > 0
                    && server.files == old(server.files)[filename :=
                         content.value[..Min(sending.received * 8192, |content.value|)]])
                || (sending == StreamCut(0) && server.files == old(server.files)["" := []])
    {
      if content == None {
        return Cancelled;
      }
      status := RequestWriteAccess(server, filename, locking);
      if status != Ok {
        return;
      }
      var crc := DfsFileChecksum(Local(content.value), server.crcTable);
      var messages := Messages(filename, crc, content.value);
      hide Checksum;
      ArrivingContent(messages, content.value, sending);
      status := server.StoreFile(sending == StreamUnseen, Arriving(messages, sending), opens);
      if sending != StreamInTime {
        status := DeadlineExceeded;
      }
      if status !in {Ok, DeadlineExceeded, AlreadyExists} {
        status := Cancelled;
      }
    }

    /** Deleting a file. The lock is left with the client if the server does not have the file or refuses to begin. */
    method Delete(server: Server, filename: string, locking: Expiry, deleting: Expiry) returns (status: Status)
      modifies server
      ensures var asked := locking != BeforeCall && MayWrite(old(server.writeMap), clientId, filename);
              var removes := asked && locking == InTime && deleting != BeforeCall && filename in old(server.files);
              && status == (if locking != InTime || (asked && deleting != InTime) then DeadlineExceeded
                            else if !asked then ResourceExhausted
                            else if removes then Ok else NotFound)
              && server.files == (if removes then old(server.files) - {filename} else old(server.files))
              && (asked ==> Owner(server.writeMap, filename) == if removes then "" else clientId)
              && forall n :: n != filename || !asked ==> Owner(server.writeMap, n) == Owner(old(server.writeMap), n)
    {
      status := RequestWriteAccess(server, filename, locking);
      if status != Ok {
        return;
      }
      status := server.DeleteFile(deleting == BeforeCall, clientId, filename);
      if deleting == AfterCall {
        status := DeadlineExceeded;
      }
      if status !in {Ok, DeadlineExceeded, NotFound} {
        status := Cancelled;
      }
    }
  }

  lemma Prefixes(messages: seq<FileMessage>, m: FileMessage, content: seq<Byte>)
    requires forall k :: 0 <= k <= |messages| ==> Concat(messages[..k]) == content[..Min(k * BUFSIZ, |content|)]
    requires Concat(messages + [m]) == content[..Min((|messages| + 1) * BUFSIZ, |content|)]
    ensures forall k :: 0 <= k <= |messages + [m]| ==>
              Concat((messages + [m])[..k]) == content[..Min(k * BUFSIZ, |content|)]
  {
    forall k | 0 <= k <= |messages + [m]|
      ensures Concat((messages + [m])[..k]) == content[..Min(k * BUFSIZ, |content|)]
    {
      if k <= |messages| {
        assert (messages + [m])[..k] == messages[..k];
      } else {
        assert (messages + [m])[..k] == messages + [m];
      }
    }
  }

  lemma ArrivingContent(messages: seq<FileMessage>, content: seq<Byte>, expiry: StreamExpiry)
    requires messages != [] && Concat(messages) == content
    requires forall k :: 0 <= k <= |messages| ==> Concat(messages[..k]) == content[..Min(k * BUFSIZ, |content|)]
    ensures var m := Arriving(messages, expiry);
            && (!expiry.StreamCut? ==> m == messages)
            && (expiry.StreamCut? ==> Concat(m) == content[..Min(expiry.received * BUFSIZ, |content|)])
            && (expiry == StreamCut(0) ==> m == [] && First(m).name == Last(m).name == "")
            && (expiry != StreamCut(0) ==> m != [] && First(m) == messages[0] && Last(m) in messages)
  {
    if expiry.StreamCut? && expiry.received > |messages| {
      assert messages[..|messages|] == messages;
      assert |content| == Min(|messages| * BUFSIZ, |content|);
    }
  }

  lemma ConcatFirst(reader: seq<FileMessage>)
    ensures Concat(if reader == [] then [] else reader[..1]) == [] + First(reader).content
  {
    if reader != [] {
      assert reader[..1] == [] + [reader[0]];
      ConcatAppend([], reader[0]);
    }
  }

  lemma {:induction false} ConcatAppend(messages: seq<FileMessage>, m: FileMessage)
    ensures Concat(messages + [m]) == Concat(messages) + m.content
    decreases |messages|
  {
    if messages == [] {
      assert messages + [m] == [m] && Concat([m]) == m.content + [];
    } else {
      ConcatAppend(messages[1..], m);
      assert (messages + [m])[1..] == messages[1..] + [m];
    }
  }

  /** The server takes a missing file for one whose checksum is 0, as every empty file's is: an empty file is never
  stored on a server that does not have it. */
  lemma EmptyLooksMissing(files: Files, name: string)
    requires name !in files
    ensures Checksum(Local([])) == Checksum(OnDisk(files, name)) == Zeros(32)
  {
    Crc32Valid();
    Crc32Fresh();
    SeedZero(CRC_32, []);
    ChecksumCoversFile(Local([]));
    assert HashedBytes(Local([])) == [];
  }

  /** So does some file that is not empty: there are four bytes with checksum 0. */
  lemma SomeFileLooksMissing() returns (content: seq<Byte>)
    ensures |content| == 4 && Checksum(Local(content)) == Zeros(32)
  {
    Crc32Valid();
    Crc32Fresh();
    SeedZero(CRC_32, []);
    EmptyRegister(CRC_32);
    hide CrcOf;
    hide Pack;
    content := EveryCrcReached(CRC_32, [], InitialRegister(CRC_32), 4);
    assert [] + content == content;
    TailEmpty(content);
    assert BufferSize(4) == 2 && CounterFits(4);
    hide FileTail;
    hide InitialRegister;
    ChecksumCoversFile(Local(content));
    hide Checksum;
    hide HashedBytes;
    assert content + [] == content;
  }

  lemma EmptyRegister(p: Parameters)
    requires p.Valid()
    ensures CrcOf(p, []) == Pack(p, InitialRegister(p))
  {
  }

  /** A Store that finds a file of the same size which differs only inside four bytes is not taken for a repeat. */
  lemma ShortChangeIsStored(files: Files, name: string, content: seq<Byte>, from: nat)
    requires name in files && |files[name]| == |content| && files[name] != content && from <= |content|
    requires CounterFits(|content|) && FileTail(files[name]) == FileTail(content)
    requires files[name][..from] == content[..from]
    requires from + 4 < |content| ==> files[name][from + 4..] == content[from + 4..]
    ensures Checksum(Local(content)) != Checksum(OnDisk(files, name))
  {
    ShortChangeDetected(Local(content), Local(files[name]), from);
  }
}
