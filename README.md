# FTP client engine

This is a Dafny model of `ClientModel` (model.py), the engine of a small
FTP client with a graphical front end. The engine owns three things:

- a control connection, on which it writes command lines and reads replies;
- a status machine over `ClientStatus` (DISCONNECT, CONNECT, USER, PASS, PORT, PASV);
- a data connection for each LIST, RETR and STOR, opened in PORT mode (the
  client listens) or in PASV mode (the client connects).

The model is arranged in six modules:

- `PyBuiltins` (py_builtins.dfy): the Python built-ins the engine relies on.
  - `str.split` and `str.join`, with their inverse laws.
  - `str(n)` and `int(s)`.
  - `bytes.decode()`.
  - `str(bytes)`, the `b'...'` repr that the source prepends "server " to.
- `AddrCodec` (addr_codec.dfy): `addr_to_ip_and_port` and
  `ip_and_port_to_addr`, with the decode cases and the round trip proved.
- `PasvScan` (pasv_scan.dfy): the regular expression `pasv` uses to find the
  address in a reply. It is a leftmost search of `\d{1,3},` four times
  followed by `\d{1,3}`.
- `Command` (command.dfy): the command lines the client writes. How a
  server splits such a line back into verb and argument is proved to be
  their inverse.
- `DataSink` (data_sink.dfy): the `while buf:` loops, the file `recv_data`
  writes, and the first read `send_data` makes of a local file.
- `Client` (client_model.dfy): the class `ClientModel`. Its fields are:
  - the status;
  - `file_ip` and `file_port`;
  - `offset`;
  - two booleans for whether `command_socket` and `file_socket` exist;
  - the log of lines sent;
  - the queue of server replies still to come;
  - the local directory, a map from file name to bytes.

  Every method states its whole new state as an update of a `Session`
  snapshot. The methods that stand for the public operations keep the
  invariant `Valid()`: the constructor, `Connect`, `User`, `Password`,
  `Type`, `Mkd`, `Rnfr`, `Rnto`, `Rmd`, `Pwd`, `Cwd`, `Syst`, `Rest`, `Quit`,
  `Port`, `Pasv`, `Retr`, `List` and `Stor`. The inner steps `Recv`,
  `SendCommand`, `RetrPort`, `RetrPasv`, `ListPort`, `ListPasv`, `StorPort`
  and `StorPasv` neither require nor ensure it. `RetrPort`, for one, drops
  the data socket while the status is still PORT, and only `Retr` then sets
  the status to PASS.

The environment is supplied as input:

- The server is the queue of raw reply byte strings that successive
  `recv(BUF_SIZE)` calls return. Once the queue is empty a read gives `b''`.
- A data connection is a sequence of chunks.
- Whether an outbound data `connect` succeeds is a parameter.

Python exceptions on the paths the source leaves unguarded are an explicit
`Raised` outcome. The one loop that never terminates is the outcome
`SendsForever`.

What the proofs establish about the source:

- **Replies are framed two ways.** `send_command` reads its reply with
  `.decode()`. `connect` and every transfer reply use `str(bytes)`, so the
  reply text looks like `b'226 ...'`. The one exception is the first reply
  of `list_port`, which is decoded.
- **The `'5'` test never fires.** Every reply text starts with "server ",
  whether it is read with `str(bytes)` or with `.decode()`, so
  `response[0] != '5'` is always true (`Client.RepliesTagged`). A RETR, a
  LIST, and a STOR whose first read of the local file is empty therefore
  return two replies once they get past the data connection. A STOR of a
  non-empty file stops after the first reply. In PORT mode `send_data`
  never returns, and in PASV mode it raises TypeError.
- **`pasv` cannot succeed.** The pattern at model.py:102 has five `\d{1,3}` numbers, and
  a PASV address needs six numbers. Whatever the scan finds splits into
  five fields, so `addr_to_ip_and_port` returns its "invalid addr" string
  and the tuple unpacking raises (`PasvScan.PasvAddrAlwaysRefused`,
  `Client.PasvNeverDecodes`). The successful branch is still modelled as
  written.
- **`pasv` never creates `file_socket`,** because model.py:106 is commented
  out. A PASV-mode transfer therefore raises AttributeError unless a socket
  is left over from an earlier `port`.
- **The offset is always 0.** `connect` never sets CONNECT, and `rest` never
  changes `offset`. `Valid()` records both facts.

Modelling choices:

- `port / 256` is the one deliberate change of computed behaviour.
  Python 3 evaluates it as float division, so for port 20000 the field is
  written as "78.125". The model uses integer division instead. The
  deviation is marked in `AddrCodec.IpAndPortToAddr`. The other
  differences are the simplifications listed under "## Left out": ASCII
  decoding, one whole reply per `recv`, and `int()` without whitespace or
  `_` handling.
- Replies are byte strings rather than text, because the two framings above
  differ.
- The ip is a string. `ip_and_port_to_addr` splits it on dots itself, and
  the round trip holds for any ip of four comma-free dotted fields, not
  only for digits.

## Model

| member | source | states |
|---|---|---|
| PyBuiltins.Split | model.py:275 | `str.split` with one separator: at least one field, no field contains the separator, every character of a field comes from the input |
| PyBuiltins.SplitJoin | model.py:283-287 | joining separator-free fields and splitting again gives back the fields |
| PyBuiltins.Join | model.py:278 | `sep.join(fields)` starts with the first field, followed by the separator when there is a second field; `SplitJoin` and `JoinSplit` make it the inverse of `Split` |
| PyBuiltins.JoinSplit | model.py:278 | splitting and joining with the same separator gives back the string |
| PyBuiltins.SplitAtSeparator | model.py:275 | a string cut at its first separator splits into the part before it, then the split of the rest |
| PyBuiltins.Str | model.py:285-286 | `str(n)` of a natural number is a non-empty run of decimal digits with no leading zero unless `n` is 0 |
| PyBuiltins.IntStr | model.py:279 | `int(str(n)) == n`: the port fields written by the encoder parse back to their values |
| PyBuiltins.Int | model.py:279 | `int(s)` succeeds exactly on a decimal literal with an optional `+` or `-` sign; an unsigned literal gives its digit value, a `+` literal the value of its digits and a `-` literal the negated value; failure stands for ValueError |
| PyBuiltins.Decode | model.py:47 | `bytes.decode()` keeps the length and maps each byte to the character with that code |
| PyBuiltins.Repr | model.py:38 | `str(bytes)` is `b` and a quoted, fully printable text at least three characters longer than the bytes; the quote is `"` exactly when the bytes hold a `'` and no `"` |
| PyBuiltins.ReprPlain | model.py:38 | a reply of printable ASCII with no `'` or `\` is written by `str(bytes)` as `b'`, its own characters, `'` |
| AddrCodec.AddrToIpAndPort | model.py:274-280 | the result is the "system 0 invalid addr" string exactly when there are fewer than six comma-separated fields |
| AddrCodec.DecodeFields | model.py:274-280 | with fewer than six fields the result is the error string; otherwise the ip is the first four fields joined by dots and the port is `256 * int(addr[-2]) + int(addr[-1])`, or ValueError when either is not a decimal literal; middle fields are ignored and no range is checked |
| AddrCodec.IpAndPortToAddr | model.py:283-287 | the address splits on commas into the dotted fields of the ip, then `port / 256`, then `port % 256` |
| AddrCodec.DecodeEncode | model.py:274-287 | decoding an encoded address refuses an ip of fewer than four dotted fields; otherwise it gives the first four fields and the port back, for every port |
| AddrCodec.RoundTrip | model.py:274-287 | `addr_to_ip_and_port(ip_and_port_to_addr(ip, port)) == (ip, port)` for every ip of four dotted fields and every port |
| PasvScan.GroupComma | model.py:102 | a `\d{1,3},` match ends after one to three digits and a comma |
| PasvScan.GroupCommaMatches | model.py:102 | conversely, one to three digits followed by a comma always match `\d{1,3},` |
| PasvScan.LastGroup | model.py:102 | the final `\d{1,3}` match is one to three digits |
| PasvScan.LastGroupGreedy | model.py:102 | the final `\d{1,3}` matches exactly when a digit follows, and it is greedy: it stops after three digits or at the first non-digit |
| PasvScan.MatchAt | model.py:102 | a match of the whole pattern starting at a position is 9 to 19 characters long and lies within the reply |
| PasvScan.Search | model.py:102 | what `re.search(...).group()` returns is 9 to 19 characters long |
| PasvScan.SearchNone | model.py:102 | the search finds nothing (so `.group()` raises AttributeError) exactly when the pattern matches at no position |
| PasvScan.SearchFirst | model.py:102 | a successful search returns the match at the first position where the pattern matches |
| PasvScan.MatchFields | model.py:102 | every match of the PASV pattern is five comma-separated fields |
| PasvScan.SearchFields | model.py:102 | whatever the leftmost search finds is five comma-separated fields |
| PasvScan.PasvAddrAlwaysRefused | model.py:101-103 | on every reply the scan finds nothing, or finds an address that `addr_to_ip_and_port` answers with the "invalid addr" string |
| Command.CommandLine | model.py:41-46 | the line is the verb, then a space and the argument only when the argument is given and non-empty, then CRLF |
| Command.ReadCommandLine | model.py:41-46 | a server splitting the line at its first space and stripping CRLF reads back the verb and argument (empty when absent) |
| Command.TransferLine | model.py:113 | the hand-built RETR/STOR line equals the `send_command` line exactly when the file name is non-empty (an empty name still gets the space) |
| Command.ReadTransferLine | model.py:113 | a server reads a transfer line back as the verb and the whole file name, spaces included |
| DataSink.Received | model.py:171-174 | a `while buf:` loop takes in a prefix of the chunks, none of them empty, and stops at an empty read |
| DataSink.ReceivedUpTo | model.py:171-174 | conversely, non-empty chunks followed by an empty read are exactly what the loop takes in |
| DataSink.ReadListing | model.py:161-174 | the listing loop yields the in-order concatenation of the chunks before the first empty read |
| DataSink.WriteAt | model.py:297 | a write at a position overwrites or extends the file there, keeps the other bytes, and fills any gap past the end with zero bytes |
| DataSink.RecvData | model.py:290-298 | the old file content is lost; with `offset <= 1` the file is exactly the received bytes; otherwise it is `offset - 1` zero bytes then the received bytes, or empty when nothing arrives |
| DataSink.FirstRead | model.py:301-307 | the first read after the seek is at most BUF_SIZE bytes of the file from `offset - 1` (or 0) on, and is empty exactly when the seek is at or past the end |
| Client.ClientModel.constructor | model.py:21-32 | status DISCONNECT, no sockets, no data address, offset 0 |
| Client.ClientModel.Recv | model.py:38 | one `recv(BUF_SIZE)` on the control connection returns the next queued reply, or `b''` once the queue is empty, and consumes it; nothing else changes |
| Client.ClientModel.Connect | model.py:35-39 | opens the control connection, returns "server " and the `str(bytes)` greeting, and leaves the status unchanged (CONNECT is never set) |
| Client.ClientModel.SendCommand | model.py:41-47 | appends the command line to the log and returns "server " plus the decoded next reply; nothing else changes |
| Client.ClientModel.User | model.py:49-51 | status USER whatever the reply; sends the USER line |
| Client.ClientModel.Password | model.py:53-55 | status PASS whatever the reply; sends the PASS line |
| Client.ClientModel.Type | model.py:57-58 | sends the bare verb `TYPE\r\n` |
| Client.ClientModel.Mkd | model.py:60-61 | sends MKD with the directory name; state otherwise unchanged |
| Client.ClientModel.Rnfr | model.py:63-64 | sends RNFR with the old name; state otherwise unchanged |
| Client.ClientModel.Rnto | model.py:66-67 | sends RNTO with the new name; state otherwise unchanged |
| Client.ClientModel.Rmd | model.py:69-70 | sends RMD with the directory name; state otherwise unchanged |
| Client.ClientModel.Pwd | model.py:72-73 | sends the bare verb `PWD\r\n` |
| Client.ClientModel.Cwd | model.py:75-76 | sends the bare verb `CWD\r\n`: no directory argument is ever sent |
| Client.ClientModel.Syst | model.py:78-79 | sends the bare verb `SYST\r\n` |
| Client.ClientModel.Rest | model.py:81-82 | sends REST with the offset text and leaves the `offset` field unchanged |
| Client.ClientModel.Quit | model.py:84-88 | sends `QUIT\r\n`, then status DISCONNECT and control connection closed |
| Client.ClientModel.Port | model.py:90-98 | opens the listening data socket, sends PORT with the encoded address, status PORT |
| Client.ClientModel.Pasv | model.py:100-108 | sends PASV; no match, the error string, or a bad port field each raise with the status unchanged; only a decoded address sets the data ip, port and status PASV, and no data socket is created |
| Client.PasvNeverDecodes | model.py:100-108 | for every server reply, the address scan of `pasv` fails or yields the error string, so `pasv` always raises |
| Client.ClientModel.RetrPort | model.py:110-128 | sends the RETR line, reads two `str(bytes)` replies, replaces the local file with what `recv_data` writes, and drops the data socket |
| Client.ClientModel.RetrPasv | model.py:130-147 | sends the RETR line, then raises if there is no data socket or the connect fails; otherwise as `RetrPort` |
| Client.ClientModel.Retr | model.py:149-158 | outside PORT/PASV it returns the refusal text with nothing changed; after a completed transfer the offset is 0 and the status PASS; a raised PASV transfer leaves both as they were |
| Client.ClientModel.ListPort | model.py:160-181 | sends `LIST\r\n`; the first reply is decoded and the second is `str(bytes)`; the listing is the decoded concatenation of the chunks; the data socket is dropped |
| Client.ClientModel.ListPasv | model.py:183-203 | sends `LIST\r\n`, then raises if there is no data socket or the connect fails; otherwise two `str(bytes)` replies and the listing |
| Client.ClientModel.List | model.py:205-213 | outside PORT/PASV it returns the refusal text, an empty listing and nothing changed; after a listing the status is PASS and the offset untouched |
| Client.ClientModel.StorPort | model.py:215-237 | a missing local file gives "system 0 not such file" with nothing sent; a non-empty first read makes `send_data` resend it forever; otherwise two replies and the data socket dropped |
| Client.ClientModel.StorPasv | model.py:239-259 | a missing local file as in `StorPort`; no data socket or a failed connect raises; a non-empty first read raises TypeError, because the `socket` class is passed to `send_data` |
| Client.ClientModel.Stor | model.py:261-270 | outside PORT/PASV it returns the refusal text with nothing changed; whenever the inner call returns, a missing file included, the offset is 0 and the status PASS |
| Client.RepliesTagged | model.py:116-119 | whatever bytes the server sends, the reply text starts with "server " under both `str(bytes)` and `.decode()`, so its first character is never '5' and the `'5'` test always passes |

## Left out

- Sockets and the operating system are not modelled. `socket`, `bind`, `listen`, `accept`, `connect`, `send`, `recv`, `close`, `open` and `os.path.isfile` become the reply queue, the chunk sequences, the `connects` flag and the local file map. Blocking, timeouts and OS errors from `bind`, `accept` and the control `connect` are not modelled.
- Commands sent without an open control connection are not modelled. In Python they raise on the `None` or closed socket; here every method that talks to the server requires `commandOpen`.
- A raised exception is an outcome, not an unwinding. The model records the state at the point of the raise, and `ListPasv` and `List` return an empty listing alongside `Raised`.
- Client.ClientModel.Port: `int(port)` on a string is not modelled; the port is taken as a natural number.
- Client.ClientModel.Connect: `int(port)` on a string is not modelled; the port is taken as a natural number.
- AddrCodec.IpAndPortToAddr: `port / 256` is modelled as integer division. Python 3 gives a float, e.g. "82.0", which `int()` then rejects. This is the one deliberate deviation.
- PyBuiltins.Int: accepts an optional sign and decimal digits only. Python's `int()` also strips surrounding whitespace and allows `_` between digits; the scanned address fields never contain either.
- PasvScan.MatchAt: states only the length of a whole-pattern match; that a match is there whenever four `\d{1,3},` pieces and a final `\d{1,3}` follow comes from `GroupCommaMatches` and `LastGroupGreedy` step by step, and is not stated for the whole pattern.
- PyBuiltins.Decode: maps one byte to one character, i.e. ASCII. UTF-8 decoding of multi-byte sequences, and the UnicodeDecodeError for invalid ones, are not modelled.
- Reply framing is not modelled. Each `recv(BUF_SIZE)` is one whole queued reply; a reply split over several reads, or several replies in one read, is not.
- `send_data` as a loop is not modelled. With a non-empty first read it never terminates, because model.py:310 discards what it reads. The model stops at that first read and reports `SendsForever` or the TypeError.
- The data-socket `close()` calls are not modelled separately. Only `file_socket = None` is, as `fileSocketOpen := false`.
- `os.path.join(self.cur_path, filename)` is not modelled. Local files are keyed by the file name.
- controller.py, view.py and client.py are not part of this model. They are widget wiring and the event loop.
- config.py is not part of this model. It holds constants only, and model.py uses its own `BUF_SIZE` of 8096.
