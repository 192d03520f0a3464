/** `ClientModel`, the FTP client engine: one control connection, a status
    machine over `ClientStatus`, and a data connection per LIST/RETR/STOR.

    The environment is explicit. The control connection is the queue of
    replies the server will send (each `recv(BUF_SIZE)` on it takes the next
    one; once the queue is used up a read returns `b''`), plus the log of
    lines written to it. A data connection is the chunk sequence of
    `DataSink`; whether an outbound data `connect` succeeds is the
    parameter `connects`. The local directory is a map from file name to
    content. Python exceptions on the paths the source does not guard are
    the `Raised` outcome; the one loop that never ends is `SendsForever`. */
module Client {
  import opened PyBuiltins
  import opened AddrCodec
  import opened PasvScan
  import opened Command
  import opened DataSink

  datatype ClientStatus = Disconnect | Connect | User | Pass | Port | Pasv

  /** The exceptions that escape from `ClientModel` methods. */
  datatype Fault =
    | NoneFileSocket   // AttributeError: `self.file_socket` is None (`pasv` never creates it)
    | ConnectRefused   // OSError from `self.file_socket.connect(...)`
    | SocketClassSend  // TypeError: `stor_pasv` hands the `socket` class to `send_data`
    | NoAddrMatch      // AttributeError: `re.search` found no address in the PASV reply
    | UnpackString     // ValueError: unpacking the "invalid addr" string into `ip, port`
    | BadPortField     // ValueError: `int()` of a port field that is not a decimal literal

  /** What a method hands back: a string, a list of tagged replies, an
      exception, or nothing at all because `send_data` resends `chunk` forever. */
  datatype Outcome =
    | Text(msg: string)
    | Replies(responses: seq<string>)
    | Raised(fault: Fault)
    | SendsForever(chunk: seq<byte>)

  /** Every field of a `ClientModel`, plus its environment. */
  datatype Session = Session(
    commandOpen: bool,
    status: ClientStatus,
    fileSocketOpen: bool,
    fileIp: Option<string>,
    filePort: Option<int>,
    offset: int,
    sent: seq<string>,
    replies: seq<seq<byte>>,
    files: map<string, seq<byte>>)

  /** The tag the client puts in front of every server reply. */
  const ServerTag: string := "server "

  /** The next reply, `b''` once the server has nothing more to send. */
  function Head(q: seq<seq<byte>>): seq<byte>
  {
    if q == [] then [] else q[0]
  }

  function Tail(q: seq<seq<byte>>): seq<seq<byte>>
  {
    if q == [] then [] else q[1..]
  }

  /** The two replies of a completed transfer, both read with `str(bytes)`. */
  function TransferReplies(q: seq<seq<byte>>): seq<string>
  {
    [ServerTag + Repr(Head(q)), ServerTag + Repr(Head(Tail(q)))]
  }

  /** A session after `line` is written on the control connection. */
  function Wrote(s: Session, line: string): Session
  {
    s.(sent := s.sent + [line])
  }

  /** A session after a completed RETR: the line written, two replies read,
      the local file replaced by what `recv_data` writes, the data socket gone. */
  function RetrDone(s: Session, filename: string, data: seq<Chunk>): Session
  {
    Wrote(s, TransferLine("RETR", filename)).(
      replies := Tail(Tail(s.replies)),
      files := s.files[filename := Downloaded(data, s.offset)],
      fileSocketOpen := false)
  }

  /** A session after a completed LIST. */
  function ListDone(s: Session): Session
  {
    Wrote(s, "LIST\r\n").(replies := Tail(Tail(s.replies)), fileSocketOpen := false)
  }

  /** A session after a completed STOR (one whose `send_data` returned). */
  function StorDone(s: Session, filename: string): Session
  {
    Wrote(s, TransferLine("STOR", filename)).(replies := Tail(Tail(s.replies)), fileSocketOpen := false)
  }

  class ClientModel {
    var commandOpen: bool          // `command_socket` is a connected socket
    var status: ClientStatus
    var fileSocketOpen: bool       // `file_socket` is not None
    var fileIp: Option<string>
    var filePort: Option<int>
    var offset: int
    var sent: seq<string>          // lines written on the control connection
    var replies: seq<seq<byte>>    // replies the server has yet to send
    var files: map<string, seq<byte>>  // the local directory `cur_path`

    function State(): Session
      reads this
    {
      Session(commandOpen, status, fileSocketOpen, fileIp, filePort, offset, sent, replies, files)
    }

    /** What every method keeps: PORT mode always has its listening socket,
        every status but DISCONNECT has a control connection, no method ever
        sets CONNECT, and no method ever sets a non-zero offset. */
    ghost predicate Valid()
      reads this
    {
      && (status == ClientStatus.Port ==> fileSocketOpen)
      && (status != ClientStatus.Disconnect ==> commandOpen)
      && status != ClientStatus.Connect
      && offset == 0
    }

    /** `__init__`, with the server's replies and the local directory as the environment. */
    constructor (server: seq<seq<byte>>, local: map<string, seq<byte>>)
      ensures Valid()
      ensures State() == Session(false, ClientStatus.Disconnect, false, None, None, 0, [], server, local)
    {
      commandOpen := false;
      status := ClientStatus.Disconnect;
      fileSocketOpen := false;
      fileIp := None;
      filePort := None;
      offset := 0;
      sent := [];
      replies := server;
      files := local;
    }

    /** One `recv(BUF_SIZE)` on the control connection. */
    method Recv() returns (reply: seq<byte>)
      modifies this
      ensures reply == Head(old(replies))
      ensures State() == old(State()).(replies := Tail(old(replies)))
    {
      reply := Head(replies);
      replies := Tail(replies);
    }

    /** `connect(host, port)`: opens the control connection and returns the
        greeting; the status is left as it was (CONNECT is never set). */
    method Connect(host: string, port: nat) returns (response: string)
      requires Valid()
      modifies this
      ensures Valid()
      ensures response == ServerTag + Repr(Head(old(replies)))
      ensures State() == old(State()).(commandOpen := true, replies := Tail(old(replies)))
    {
      commandOpen := true;
      var greeting := Recv();
      response := ServerTag + Repr(greeting);
    }

    /** `send_command(command, argu)`: write the command line, return the
        next reply tagged "server ". */
    method SendCommand(command: string, argu: Option<string>) returns (response: string)
      requires commandOpen
      modifies this
      ensures response == ServerTag + Decode(Head(old(replies)))
      ensures State() == Wrote(old(State()), CommandLine(command, argu)).(replies := Tail(old(replies)))
    {
      sent := sent + [CommandLine(command, argu)];
      var reply := Recv();
      response := ServerTag + Decode(reply);
    }

    /** `user(username)`: status USER whatever the server answers. */
    method User(username: string) returns (response: string)
      requires Valid() && commandOpen
      modifies this
      ensures Valid()
      ensures response == ServerTag + Decode(Head(old(replies)))
      ensures State() == Wrote(old(State()), CommandLine("USER", Some(username))).(
        replies := Tail(old(replies)), status := ClientStatus.User)
    {
      status := ClientStatus.User;
      response := SendCommand("USER", Some(username));
    }

    /** `password(password)`: status PASS whatever the server answers. */
    method Password(password: string) returns (response: string)
      requires Valid() && commandOpen
      modifies this
      ensures Valid()
      ensures response == ServerTag + Decode(Head(old(replies)))
      ensures State() == Wrote(old(State()), CommandLine("PASS", Some(password))).(
        replies := Tail(old(replies)), status := ClientStatus.Pass)
    {
      status := ClientStatus.Pass;
      response := SendCommand("PASS", Some(password));
    }

    /** `type()`: the bare verb, no representation type. */
    method Type() returns (response: string)
      requires Valid() && commandOpen
      modifies this
      ensures Valid()
      ensures response == ServerTag + Decode(Head(old(replies)))
      ensures State() == Wrote(old(State()), CommandLine("TYPE", None)).(replies := Tail(old(replies)))
    {
      response := SendCommand("TYPE", None);
    }

    method Mkd(dirName: string) returns (response: string)
      requires Valid() && commandOpen
      modifies this
      ensures Valid()
      ensures response == ServerTag + Decode(Head(old(replies)))
      ensures State() == Wrote(old(State()), CommandLine("MKD", Some(dirName))).(replies := Tail(old(replies)))
    {
      response := SendCommand("MKD", Some(dirName));
    }

    method Rnfr(oldName: string) returns (response: string)
      requires Valid() && commandOpen
      modifies this
      ensures Valid()
      ensures response == ServerTag + Decode(Head(old(replies)))
      ensures State() == Wrote(old(State()), CommandLine("RNFR", Some(oldName))).(replies := Tail(old(replies)))
    {
      response := SendCommand("RNFR", Some(oldName));
    }

    method Rnto(newName: string) returns (response: string)
      requires Valid() && commandOpen
      modifies this
      ensures Valid()
      ensures response == ServerTag + Decode(Head(old(replies)))
      ensures State() == Wrote(old(State()), CommandLine("RNTO", Some(newName))).(replies := Tail(old(replies)))
    {
      response := SendCommand("RNTO", Some(newName));
    }

    method Rmd(dirName: string) returns (response: string)
      requires Valid() && commandOpen
      modifies this
      ensures Valid()
      ensures response == ServerTag + Decode(Head(old(replies)))
      ensures State() == Wrote(old(State()), CommandLine("RMD", Some(dirName))).(replies := Tail(old(replies)))
    {
      response := SendCommand("RMD", Some(dirName));
    }

    method Pwd() returns (response: string)
      requires Valid() && commandOpen
      modifies this
      ensures Valid()
      ensures response == ServerTag + Decode(Head(old(replies)))
      ensures State() == Wrote(old(State()), CommandLine("PWD", None)).(replies := Tail(old(replies)))
    {
      response := SendCommand("PWD", None);
    }

    /** `cwd()` takes no directory: it sends the bare verb. */
    method Cwd() returns (response: string)
      requires Valid() && commandOpen
      modifies this
      ensures Valid()
      ensures response == ServerTag + Decode(Head(old(replies)))
      ensures State() == Wrote(old(State()), CommandLine("CWD", None)).(replies := Tail(old(replies)))
    {
      response := SendCommand("CWD", None);
    }

    method Syst() returns (response: string)
      requires Valid() && commandOpen
      modifies this
      ensures Valid()
      ensures response == ServerTag + Decode(Head(old(replies)))
      ensures State() == Wrote(old(State()), CommandLine("SYST", None)).(replies := Tail(old(replies)))
    {
      response := SendCommand("SYST", None);
    }

    /** `rest(offset)`: sends REST but leaves the `offset` field alone, so
        a later RETR or STOR still starts from the beginning. The caller
        passes the offset as text: `send_command` takes `len(argu)`, which
        an int does not have. */
    method Rest(restOffset: string) returns (response: string)
      requires Valid() && commandOpen
      modifies this
      ensures Valid()
      ensures response == ServerTag + Decode(Head(old(replies)))
      ensures offset == old(offset)
      ensures State() == Wrote(old(State()), CommandLine("REST", Some(restOffset))).(replies := Tail(old(replies)))
    {
      response := SendCommand("REST", Some(restOffset));
    }

    /** `quit()`: status DISCONNECT and the control connection closed. */
    method Quit() returns (response: string)
      requires Valid() && commandOpen
      modifies this
      ensures Valid()
      ensures response == ServerTag + Decode(Head(old(replies)))
      ensures State() == Wrote(old(State()), CommandLine("QUIT", None)).(
        replies := Tail(old(replies)), status := ClientStatus.Disconnect, commandOpen := false)
    {
      response := SendCommand("QUIT", None);
      status := ClientStatus.Disconnect;
      commandOpen := false;
    }

    /** `port(ip, port)`: a listening data socket, the PORT line carrying
        the encoded address, status PORT. */
    method Port(ip: string, port: nat) returns (response: string)
      requires Valid() && commandOpen
      modifies this
      ensures Valid()
      ensures response == ServerTag + Decode(Head(old(replies)))
      ensures State() == Wrote(old(State()), CommandLine("PORT", Some(IpAndPortToAddr(ip, port)))).(
        replies := Tail(old(replies)), fileSocketOpen := true, status := ClientStatus.Port)
    {
      var addr := IpAndPortToAddr(ip, port);
      fileSocketOpen := true;  // socket(), bind((ip, port)), listen(BACKLOG)
      response := SendCommand("PORT", Some(addr));
      status := ClientStatus.Port;
    }

    /** `pasv()`: send PASV, scan the tagged reply for the address, decode
        it. Only a decoded address sets `file_ip`, `file_port` and status
        PASV; every other path raises after the exchange. */
    method Pasv() returns (r: Outcome)
      requires Valid() && commandOpen
      modifies this
      ensures Valid()
      ensures
        var response := ServerTag + Decode(Head(old(replies)));
        var exchanged := Wrote(old(State()), CommandLine("PASV", None)).(replies := Tail(old(replies)));
        match Search(response, 0)
        case None => r == Raised(NoAddrMatch) && State() == exchanged
        case Some(addr) =>
          match AddrToIpAndPort(addr)
          case Invalid(_) => r == Raised(UnpackString) && State() == exchanged
          case NotAnInteger => r == Raised(BadPortField) && State() == exchanged
          case IpPort(ip, port) =>
            r == Text(response) &&
            State() == exchanged.(fileIp := Some(ip), filePort := Some(port), status := ClientStatus.Pasv)
    {
      var response := SendCommand("PASV", None);
      var found := Search(response, 0);
      if found.None? {
        return Raised(NoAddrMatch);
      }
      match AddrToIpAndPort(found.value)
      case Invalid(_) =>
        r := Raised(UnpackString);
      case NotAnInteger =>
        r := Raised(BadPortField);
      case IpPort(ip, port) =>
        fileIp := Some(ip);
        filePort := Some(port);
        status := ClientStatus.Pasv;
        r := Text(response);
    }

    // ------------------------------------------------------------ RETR

    /** `retr_port(filename)`: accept the server's data connection, which
        sends `data`. */
    method RetrPort(filename: string, data: seq<Chunk>) returns (responses: seq<string>)
      requires commandOpen && fileSocketOpen
      modifies this
      ensures responses == TransferReplies(old(replies))
      ensures State() == RetrDone(old(State()), filename, data)
    {
      sent := sent + [TransferLine("RETR", filename)];
      var reply := Recv();
      var response := ServerTag + Repr(reply);
      responses := [response];
      if response[0] != '5' {
        var content := RecvData(data, offset);
        files := files[filename := content];
        reply := Recv();
        responses := responses + [ServerTag + Repr(reply)];
      }
      fileSocketOpen := false;
    }

    /** `retr_pasv(filename)`: connect to the server's data port, which sends `data`. */
    method RetrPasv(filename: string, data: seq<Chunk>, connects: bool) returns (r: Outcome)
      requires commandOpen
      modifies this
      ensures !old(fileSocketOpen) ==>
        r == Raised(NoneFileSocket) && State() == Wrote(old(State()), TransferLine("RETR", filename))
      ensures old(fileSocketOpen) && !connects ==>
        r == Raised(ConnectRefused) && State() == Wrote(old(State()), TransferLine("RETR", filename))
      ensures old(fileSocketOpen) && connects ==>
        r == Replies(TransferReplies(old(replies))) && State() == RetrDone(old(State()), filename, data)
    {
      sent := sent + [TransferLine("RETR", filename)];
      if !fileSocketOpen {
        return Raised(NoneFileSocket);
      }
      if !connects {
        return Raised(ConnectRefused);
      }
      var reply := Recv();
      var response := ServerTag + Repr(reply);
      var responses := [response];
      if response[0] != '5' {
        var content := RecvData(data, offset);
        files := files[filename := content];
        reply := Recv();
        responses := responses + [ServerTag + Repr(reply)];
      }
      fileSocketOpen := false;
      r := Replies(responses);
    }

    /** `retr(filename)`: refused outside PORT/PASV with nothing changed;
        after a completed transfer the offset is 0 and the status PASS. */
    method Retr(filename: string, data: seq<Chunk>, connects: bool) returns (r: Outcome)
      requires Valid()
      modifies this
      ensures Valid()
      ensures old(status) != ClientStatus.Port && old(status) != ClientStatus.Pasv ==>
        r == Text("system 0 RETR require PORT/PASV mode") && State() == old(State())
      ensures old(status) == ClientStatus.Port || (old(status) == ClientStatus.Pasv && old(fileSocketOpen) && connects) ==>
        r == Replies(TransferReplies(old(replies))) &&
        State() == RetrDone(old(State()), filename, data).(offset := 0, status := ClientStatus.Pass)
      ensures old(status) == ClientStatus.Pasv && !(old(fileSocketOpen) && connects) ==>
        r == Raised(if old(fileSocketOpen) then ConnectRefused else NoneFileSocket) &&
        State() == Wrote(old(State()), TransferLine("RETR", filename))
    {
      if status == ClientStatus.Port {
        var responses := RetrPort(filename, data);
        r := Replies(responses);
      } else if status == ClientStatus.Pasv {
        r := RetrPasv(filename, data, connects);
        if r.Raised? {
          return;
        }
      } else {
        return Text("system 0 RETR require PORT/PASV mode");
      }
      offset := 0;
      status := ClientStatus.Pass;
    }

    // ------------------------------------------------------------ LIST

    /** `list_port()`. Its first reply is read with `.decode()`, its second with `str(bytes)`. */
    method ListPort(data: seq<Chunk>) returns (responses: seq<string>, listing: string)
      requires commandOpen && fileSocketOpen
      modifies this
      ensures responses == [ServerTag + Decode(Head(old(replies))), ServerTag + Repr(Head(Tail(old(replies))))]
      ensures listing == Decode(Stream(data))
      ensures State() == ListDone(old(State()))
    {
      var body: seq<byte> := [];
      sent := sent + ["LIST\r\n"];
      var reply := Recv();
      var response := ServerTag + Decode(reply);
      responses := [response];
      if response[0] != '5' {
        body := ReadListing(data);
        reply := Recv();
        responses := responses + [ServerTag + Repr(reply)];
      }
      fileSocketOpen := false;
      listing := Decode(body);
    }

    /** `list_pasv()`. Both replies are read with `str(bytes)`. */
    method ListPasv(data: seq<Chunk>, connects: bool) returns (r: Outcome, listing: string)
      requires commandOpen
      modifies this
      ensures !(old(fileSocketOpen) && connects) ==>
        r == Raised(if old(fileSocketOpen) then ConnectRefused else NoneFileSocket) &&
        listing == "" && State() == Wrote(old(State()), "LIST\r\n")
      ensures old(fileSocketOpen) && connects ==>
        r == Replies(TransferReplies(old(replies))) && listing == Decode(Stream(data)) &&
        State() == ListDone(old(State()))
    {
      var body: seq<byte> := [];
      listing := "";
      sent := sent + ["LIST\r\n"];
      if !fileSocketOpen {
        return Raised(NoneFileSocket), listing;
      }
      if !connects {
        return Raised(ConnectRefused), listing;
      }
      var reply := Recv();
      var response := ServerTag + Repr(reply);
      var responses := [response];
      if response[0] != '5' {
        body := ReadListing(data);
        reply := Recv();
        responses := responses + [ServerTag + Repr(reply)];
      }
      fileSocketOpen := false;
      r := Replies(responses);
      listing := Decode(body);
    }

    /** `list()`: refused outside PORT/PASV with nothing changed (and an
        empty listing); after a completed listing the status is PASS and the
        offset untouched. */
    method List(data: seq<Chunk>, connects: bool) returns (r: Outcome, listing: string)
      requires Valid()
      modifies this
      ensures Valid()
      ensures old(status) != ClientStatus.Port && old(status) != ClientStatus.Pasv ==>
        r == Text("system 0 LIST require PORT/PASV mode") && listing == "" && State() == old(State())
      ensures old(status) == ClientStatus.Port ==>
        r == Replies([ServerTag + Decode(Head(old(replies))), ServerTag + Repr(Head(Tail(old(replies))))]) &&
        listing == Decode(Stream(data)) &&
        State() == ListDone(old(State())).(status := ClientStatus.Pass)
      ensures old(status) == ClientStatus.Pasv && old(fileSocketOpen) && connects ==>
        r == Replies(TransferReplies(old(replies))) && listing == Decode(Stream(data)) &&
        State() == ListDone(old(State())).(status := ClientStatus.Pass)
      ensures old(status) == ClientStatus.Pasv && !(old(fileSocketOpen) && connects) ==>
        r == Raised(if old(fileSocketOpen) then ConnectRefused else NoneFileSocket) &&
        listing == "" && State() == Wrote(old(State()), "LIST\r\n")
    {
      if status == ClientStatus.Port {
        var responses;
        responses, listing := ListPort(data);
        r := Replies(responses);
      } else if status == ClientStatus.Pasv {
        r, listing := ListPasv(data, connects);
        if r.Raised? {
          return;
        }
      } else {
        return Text("system 0 LIST require PORT/PASV mode"), "";
      }
      status := ClientStatus.Pass;
    }

    // ------------------------------------------------------------ STOR

    /** `stor_port(filename)`: no STOR for a missing local file; otherwise
        accept the data connection and hand the file to `send_data`, which
        returns only when its first read is empty. */
    method StorPort(filename: string) returns (r: Outcome)
      requires commandOpen && fileSocketOpen
      modifies this
      ensures filename !in old(files) ==> r == Text("system 0 not such file") && State() == old(State())
      ensures filename in old(files) && FirstRead(old(files)[filename], old(offset)) != [] ==>
        r == SendsForever(FirstRead(old(files)[filename], old(offset))) &&
        State() == Wrote(old(State()), TransferLine("STOR", filename)).(replies := Tail(old(replies)))
      ensures filename in old(files) && FirstRead(old(files)[filename], old(offset)) == [] ==>
        r == Replies(TransferReplies(old(replies))) && State() == StorDone(old(State()), filename)
    {
      if filename !in files {
        return Text("system 0 not such file");
      }
      sent := sent + [TransferLine("STOR", filename)];
      var reply := Recv();
      var response := ServerTag + Repr(reply);
      var responses := [response];
      if response[0] != '5' {
        var first := FirstRead(files[filename], offset);
        if first != [] {
          // `while buf: sock.send(buf); fp.read(BUF_SIZE)` never reassigns buf
          return SendsForever(first);
        }
        reply := Recv();
        responses := responses + [ServerTag + Repr(reply)];
      }
      fileSocketOpen := false;
      r := Replies(responses);
    }

    /** `stor_pasv(filename)`: as `stor_port`, but `send_data` is handed the
        `socket` class, so a non-empty first read raises on its `send`. */
    method StorPasv(filename: string, connects: bool) returns (r: Outcome)
      requires commandOpen
      modifies this
      ensures filename !in old(files) ==> r == Text("system 0 not such file") && State() == old(State())
      ensures filename in old(files) && !(old(fileSocketOpen) && connects) ==>
        r == Raised(if old(fileSocketOpen) then ConnectRefused else NoneFileSocket) &&
        State() == Wrote(old(State()), TransferLine("STOR", filename))
      ensures filename in old(files) && old(fileSocketOpen) && connects &&
              FirstRead(old(files)[filename], old(offset)) != [] ==>
        r == Raised(SocketClassSend) &&
        State() == Wrote(old(State()), TransferLine("STOR", filename)).(replies := Tail(old(replies)))
      ensures filename in old(files) && old(fileSocketOpen) && connects &&
              FirstRead(old(files)[filename], old(offset)) == [] ==>
        r == Replies(TransferReplies(old(replies))) && State() == StorDone(old(State()), filename)
    {
      if filename !in files {
        return Text("system 0 not such file");
      }
      sent := sent + [TransferLine("STOR", filename)];
      if !fileSocketOpen {
        return Raised(NoneFileSocket);
      }
      if !connects {
        return Raised(ConnectRefused);
      }
      var reply := Recv();
      var response := ServerTag + Repr(reply);
      var responses := [response];
      if response[0] != '5' {
        if FirstRead(files[filename], offset) != [] {
          return Raised(SocketClassSend);
        }
        reply := Recv();
        responses := responses + [ServerTag + Repr(reply)];
      }
      fileSocketOpen := false;
      r := Replies(responses);
    }

    /** `stor(filename)`: refused outside PORT/PASV with nothing changed;
        whenever `stor_port` / `stor_pasv` return (a missing local file
        included) the offset becomes 0 and the status PASS. */
    method Stor(filename: string, connects: bool) returns (r: Outcome)
      requires Valid()
      modifies this
      ensures Valid()
      ensures old(status) != ClientStatus.Port && old(status) != ClientStatus.Pasv ==>
        r == Text("system 0 STOR require PORT/PASV mode") && State() == old(State())
      ensures (old(status) == ClientStatus.Port || old(status) == ClientStatus.Pasv) && filename !in old(files) ==>
        r == Text("system 0 not such file") &&
        State() == old(State()).(offset := 0, status := ClientStatus.Pass)
      ensures old(status) == ClientStatus.Port && filename in old(files) ==>
        if FirstRead(old(files)[filename], old(offset)) != [] then
          r == SendsForever(FirstRead(old(files)[filename], old(offset))) &&
          State() == Wrote(old(State()), TransferLine("STOR", filename)).(replies := Tail(old(replies)))
        else
          r == Replies(TransferReplies(old(replies))) &&
          State() == StorDone(old(State()), filename).(offset := 0, status := ClientStatus.Pass)
      ensures old(status) == ClientStatus.Pasv && filename in old(files) ==>
        if !(old(fileSocketOpen) && connects) then
          r == Raised(if old(fileSocketOpen) then ConnectRefused else NoneFileSocket) &&
          State() == Wrote(old(State()), TransferLine("STOR", filename))
        else if FirstRead(old(files)[filename], old(offset)) != [] then
          r == Raised(SocketClassSend) &&
          State() == Wrote(old(State()), TransferLine("STOR", filename)).(replies := Tail(old(replies)))
        else
          r == Replies(TransferReplies(old(replies))) &&
          State() == StorDone(old(State()), filename).(offset := 0, status := ClientStatus.Pass)
    {
      if status == ClientStatus.Port {
        r := StorPort(filename);
        if r.SendsForever? {
          return;
        }
      } else if status == ClientStatus.Pasv {
        r := StorPasv(filename, connects);
        if r.Raised? {
          return;
        }
      } else {
        return Text("system 0 STOR require PORT/PASV mode");
      }
      offset := 0;
      status := ClientStatus.Pass;
    }
  }

  /** The PASV exchange never reaches passive mode: whatever the server
      replies, the scan of the tagged reply finds nothing or finds an address
      `addr_to_ip_and_port` refuses, so `Pasv` always raises and leaves the
      status as it was. */
  lemma PasvNeverDecodes(reply: seq<byte>)
    ensures
      var found := Search(ServerTag + Decode(reply), 0);
      found.None? || AddrToIpAndPort(found.value) == Invalid(InvalidAddr)
  {
    PasvAddrAlwaysRefused(ServerTag + Decode(reply));
  }

  /** Every reply text the client builds starts with the tag, whether the
      reply bytes are read with `str(bytes)` or with `.decode()`, so each
      `response[0] != '5'` test passes whatever the server sent. */
  lemma RepliesTagged(b: seq<byte>)
    ensures (ServerTag + Repr(b))[..|ServerTag|] == ServerTag && (ServerTag + Repr(b))[0] != '5'
    ensures (ServerTag + Decode(b))[..|ServerTag|] == ServerTag && (ServerTag + Decode(b))[0] != '5'
  {
  }
}
