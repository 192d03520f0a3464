/** What the client does with a data connection: the `while buf:` loops
    that read it until the first empty read, the file `recv_data` writes,
    and the first read `send_data` makes of a local file.

    A data connection is the sequence of chunks the peer's successive
    `recv(BUF_SIZE)` calls return; once the sequence is used up every
    further read returns `b''`, as a socket does after the peer closed it. */
module DataSink {
  import opened PyBuiltins

  type Chunk = seq<byte>

  /** `BUF_SIZE` of model.py (not the 8192 of the configuration module). */
  const BUF_SIZE: nat := 8096

  /** The chunk the `k`-th `recv` returns. */
  function RecvAt(chunks: seq<Chunk>, k: nat): Chunk
  {
    if k < |chunks| then chunks[k] else []
  }

  /** The chunks a `while buf:` loop takes in: those before the first empty
      read. They are a prefix of the connection, none of them is empty, and
      the read after them is empty. */
  function Received(chunks: seq<Chunk>): (got: seq<Chunk>)
    ensures |got| <= |chunks| && got == chunks[..|got|]
    ensures forall k :: 0 <= k < |got| ==> got[k] != []
    ensures RecvAt(chunks, |got|) == []
  {
    if chunks == [] || chunks[0] == [] then []
    else [chunks[0]] + Received(chunks[1..])
  }

  /** The converse: a prefix of non-empty chunks followed by an empty read
      is exactly what the loop takes in. */
  lemma {:induction false} ReceivedUpTo(chunks: seq<Chunk>, n: nat)
    requires n <= |chunks|
    requires forall k :: 0 <= k < n ==> chunks[k] != []
    requires RecvAt(chunks, n) == []
    ensures Received(chunks) == chunks[..n]
  {
    if n > 0 {
      ReceivedUpTo(chunks[1..], n - 1);
      assert chunks[..n] == [chunks[0]] + chunks[1..][..n - 1];
    }
  }

  /** All bytes of a list of chunks, in order. */
  function Concat(cs: seq<Chunk>): seq<byte>
  {
    if cs == [] then [] else cs[0] + Concat(cs[1..])
  }

  lemma {:induction false} ConcatSnoc(cs: seq<Chunk>, c: Chunk)
    ensures Concat(cs + [c]) == Concat(cs) + c
  {
    if cs != [] {
      assert (cs + [c])[1..] == cs[1..] + [c];
      ConcatSnoc(cs[1..], c);
    } else {
      assert [c][1..] == [];
    }
  }

  /** The bytes a `while buf:` loop takes in. */
  function Stream(chunks: seq<Chunk>): seq<byte>
  {
    Concat(Received(chunks))
  }

  /** The listing loop of `list_port` / `list_pasv`: starting from `b''`,
      append every chunk until the first empty read. */
  method ReadListing(chunks: seq<Chunk>) returns (listing: seq<byte>)
    ensures listing == Stream(chunks)
  {
    listing := [];
    var k := 0;
    var buf := RecvAt(chunks, k);
    while buf != []
      invariant k <= |chunks| && buf == RecvAt(chunks, k)
      invariant forall j :: 0 <= j < k ==> chunks[j] != []
      invariant listing == Concat(chunks[..k])
      decreases |chunks| - k
    {
      assert chunks[..k + 1] == chunks[..k] + [buf];
      ConcatSnoc(chunks[..k], buf);
      listing := listing + buf;
      k := k + 1;
      buf := RecvAt(chunks, k);
    }
    ReceivedUpTo(chunks, k);
  }

  // ---------------------------------------------------------------- local files

  function Zeros(n: nat): (z: seq<byte>)
    ensures |z| == n && forall i :: 0 <= i < n ==> z[i] == 0
  {
    seq(n, _ => 0)
  }

  /** `fp.write(buf)` at position `pos` of a file holding `file`: the bytes
      at `pos` are overwritten (or appended), and writing past the end first
      fills the gap with zero bytes. */
  function WriteAt(file: seq<byte>, pos: nat, buf: seq<byte>): (r: seq<byte>)
    ensures |r| == if pos + |buf| > |file| then pos + |buf| else |file|
    ensures r[pos..pos + |buf|] == buf
    ensures forall i :: 0 <= i < pos && i < |file| ==> r[i] == file[i]
    ensures forall i :: |file| <= i < pos ==> r[i] == 0
    ensures forall i :: pos + |buf| <= i < |file| ==> r[i] == file[i]
  {
    if pos <= |file| then
      var tail := if pos + |buf| <= |file| then file[pos + |buf|..] else [];
      file[..pos] + buf + tail
    else file + Zeros(pos - |file|) + buf
  }

  /** Where `recv_data` and `send_data` start: `seek(offset - 1)` when the
      offset is positive, the start of the file otherwise. */
  function SeekStart(offset: int): nat
  {
    if offset > 0 then offset - 1 else 0
  }

  /** The file `recv_data` leaves: opened with "wb", so empty if nothing
      arrives; otherwise the seek gap of zero bytes, then the received bytes. */
  function Downloaded(chunks: seq<Chunk>, offset: int): seq<byte>
  {
    if Stream(chunks) == [] then [] else Zeros(SeekStart(offset)) + Stream(chunks)
  }

  /** `recv_data(sock, file_path, offset)`: truncate the file, seek, then
      write every chunk until the first empty read. The old content is
      always lost; with `offset <= 1` the file is exactly the received
      bytes; with a larger offset it is `offset - 1` zero bytes and then the
      received bytes, as long as at least one byte arrived. */
  method RecvData(chunks: seq<Chunk>, offset: int) returns (file: seq<byte>)
    ensures file == Downloaded(chunks, offset)
    ensures offset <= 1 ==> file == Stream(chunks)
    ensures Stream(chunks) == [] ==> file == []
    ensures Stream(chunks) != [] ==>
      |file| == SeekStart(offset) + |Stream(chunks)| &&
      (forall i :: 0 <= i < SeekStart(offset) ==> file[i] == 0) &&
      file[SeekStart(offset)..] == Stream(chunks)
  {
    file := [];
    var pos := SeekStart(offset);
    var k := 0;
    var buf := RecvAt(chunks, k);
    while buf != []
      invariant k <= |chunks| && buf == RecvAt(chunks, k)
      invariant forall j :: 0 <= j < k ==> chunks[j] != []
      invariant pos == SeekStart(offset) + |Concat(chunks[..k])|
      invariant file == if Concat(chunks[..k]) == [] then [] else Zeros(SeekStart(offset)) + Concat(chunks[..k])
      decreases |chunks| - k
    {
      assert chunks[..k + 1] == chunks[..k] + [buf];
      ConcatSnoc(chunks[..k], buf);
      if file == [] {
        assert WriteAt(file, pos, buf) == Zeros(pos) + buf;
      } else {
        assert pos == |file|;
        assert WriteAt(file, pos, buf) == file + buf;
      }
      file := WriteAt(file, pos, buf);
      pos := pos + |buf|;
      k := k + 1;
      buf := RecvAt(chunks, k);
    }
    ReceivedUpTo(chunks, k);
    if offset <= 1 && file != [] {
      assert Zeros(SeekStart(offset)) == [];
    }
  }

  /** The first `fp.read(BUF_SIZE)` of `send_data` after its seek: at most
      `BUF_SIZE` bytes of the file from the seek position on, and empty
      exactly when the seek lands at or past the end of the file. */
  function FirstRead(file: seq<byte>, offset: int): (buf: seq<byte>)
    ensures |buf| <= BUF_SIZE
    ensures buf == [] <==> SeekStart(offset) >= |file|
    ensures buf != [] ==> SeekStart(offset) + |buf| <= |file|
    ensures buf != [] ==> buf == file[SeekStart(offset)..SeekStart(offset) + |buf|]
    ensures buf != [] ==> |buf| == BUF_SIZE || SeekStart(offset) + |buf| == |file|
  {
    var start := SeekStart(offset);
    if start >= |file| then []
    else if start + BUF_SIZE <= |file| then file[start..start + BUF_SIZE]
    else file[start..]
  }
}
