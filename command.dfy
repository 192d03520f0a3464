/** The lines the client writes on the control connection, and how an FTP
    server reads such a line back (verb up to the first space, argument the
    rest, CRLF stripped), which serves as their inverse. */
module Command {
  import opened PyBuiltins

  const CRLF: string := "\r\n"

  /** The argument text of an optional argument; None stands for Python's `None`. */
  function ArgText(argu: Option<string>): string
  {
    if argu.Some? then argu.value else ""
  }

  /** The line `send_command(command, argu)` writes: the verb, then a space
      and the argument only when the argument is given and non-empty, then CRLF. */
  function CommandLine(command: string, argu: Option<string>): (line: string)
    ensures |line| == |command| + (if ArgText(argu) == "" then 0 else 1 + |ArgText(argu)|) + 2
    ensures line[..|command|] == command && line[|line| - 2..] == CRLF
    ensures ArgText(argu) != "" ==> line[|command|] == ' ' && line[|command| + 1..|line| - 2] == ArgText(argu)
  {
    var msg := if argu.Some? && |argu.value| > 0 then command + " " + argu.value else command;
    msg + CRLF
  }

  /** The line `retr_*`, `stor_*` build by hand: `verb + " " + filename + "\r\n"`,
      which keeps the space even for an empty file name. */
  function TransferLine(verb: string, filename: string): (line: string)
    ensures line == CommandLine(verb, Some(filename)) <==> filename != ""
  {
    assert |verb + " " + CRLF| != |CommandLine(verb, Some(""))|;
    verb + " " + filename + CRLF
  }

  /** The index of the first `c` in `s`, or `|s|` when there is none. */
  function FirstIndex(s: string, c: char): (k: nat)
    ensures k <= |s| && c !in s[..k]
    ensures k < |s| ==> s[k] == c
  {
    if s == [] then 0
    else if s[0] == c then 0
    else
      var k := FirstIndex(s[1..], c);
      assert s[..k + 1] == [s[0]] + s[1..][..k];
      k + 1
  }

  /** The first `c` is the one with no `c` before it. */
  lemma {:induction false} FirstIndexAt(s: string, c: char, k: nat)
    requires k < |s| && s[k] == c && c !in s[..k]
    ensures FirstIndex(s, c) == k
  {
    if k > 0 {
      assert s[0] == s[..k][0];
      assert s[1..][..k - 1] == s[1..k];
      assert c !in s[1..k] by {
        forall j | 0 <= j < k - 1 ensures s[1..k][j] != c {
          assert s[1..k][j] == s[..k][j + 1];
        }
      }
      FirstIndexAt(s[1..], c, k - 1);
    }
  }

  /** How a server reads a command line: nothing unless it ends in CRLF;
      otherwise the verb is the text before the first space and the
      argument the text after it (empty when there is no space). */
  function ReadLine(line: string): Option<(string, string)>
  {
    if |line| < 2 || line[|line| - 2..] != CRLF then None
    else
      var body := line[..|line| - 2];
      var k := FirstIndex(body, ' ');
      if k == |body| then Some((body, "")) else Some((body[..k], body[k + 1..]))
  }

  /** A server reads back exactly the verb and argument `send_command` was
      given, for any verb without a space: an absent or empty argument reads
      as the empty argument. */
  lemma ReadCommandLine(command: string, argu: Option<string>)
    requires ' ' !in command
    ensures ReadLine(CommandLine(command, argu)) == Some((command, ArgText(argu)))
  {
    var line := CommandLine(command, argu);
    var body := line[..|line| - 2];
    assert body[..|command|] == command;
    if ArgText(argu) == "" {
      assert body == command;
    } else {
      assert body[|command|] == ' ';
      FirstIndexAt(body, ' ', |command|);
      assert body[|command| + 1..] == ArgText(argu);
    }
  }

  /** A server reads a transfer line as the verb and the file name, whatever
      the file name holds (spaces included). */
  lemma ReadTransferLine(verb: string, filename: string)
    requires ' ' !in verb
    ensures ReadLine(TransferLine(verb, filename)) == Some((verb, filename))
  {
    var line := TransferLine(verb, filename);
    var body := line[..|line| - 2];
    assert body == verb + " " + filename;
    assert body[|verb|] == ' ' && body[..|verb|] == verb;
    FirstIndexAt(body, ' ', |verb|);
    assert body[|verb| + 1..] == filename;
  }
}
