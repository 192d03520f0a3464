/** The Python built-ins the FTP client leans on, stated as Dafny functions:
    `str.split` and `str.join` with a one-character separator, `str(n)` for a
    non-negative int, `int(s)` for a decimal literal, and the two ways the
    client turns received bytes into text (`bytes.decode()` and `str(bytes)`). */
module PyBuiltins {

  datatype Option<T> = None | Some(value: T)

  /** One octet as `socket.recv` and file I/O deliver it. */
  newtype byte = x: int | 0 <= x < 256

  // ---------------------------------------------------------------- split / join

  /** `s.split(sep)`: the pieces between the occurrences of `sep`, left to
      right; there is always at least one piece. */
  function Split(s: string, sep: char): (fields: seq<string>)
    ensures |fields| >= 1
    ensures forall i :: 0 <= i < |fields| ==> sep !in fields[i]
    ensures forall i, k :: 0 <= i < |fields| && 0 <= k < |fields[i]| ==> fields[i][k] in s
    decreases |s|
  {
    if s == [] then [[]]
    else if s[0] == sep then [[]] + Split(s[1..], sep)
    else
      var rest := Split(s[1..], sep);
      [[s[0]] + rest[0]] + rest[1..]
  }

  /** `sep.join(fields)`: the first field comes first, a separator follows
      it when there is a second field, and for separator-free fields the
      separator occurs exactly when there are at least two of them. */
  function Join(fields: seq<string>, sep: char): (s: string)
    ensures |fields| >= 1 ==> |fields[0]| <= |s| && s[..|fields[0]|] == fields[0]
    ensures |fields| >= 2 ==> |fields[0]| < |s| && s[|fields[0]|] == sep
    decreases |fields|
  {
    if |fields| == 0 then []
    else if |fields| == 1 then fields[0]
    else fields[0] + [sep] + Join(fields[1..], sep)
  }

  /** A piece free of the separator stays whole in front of whatever follows. */
  lemma {:induction false} SplitPrefix(a: string, rest: string, sep: char)
    requires sep !in a
    ensures Split(a + rest, sep) == [a + Split(rest, sep)[0]] + Split(rest, sep)[1..]
    decreases |a|
  {
    if a != [] {
      var s := a + rest;
      assert s[0] == a[0] != sep && s[1..] == a[1..] + rest;
      SplitPrefix(a[1..], rest, sep);
      var r := Split(rest, sep);
      var r' := Split(s[1..], sep);
      assert r'[0] == a[1..] + r[0] && r'[1..] == r[1..];
      assert [a[0]] + r'[0] == a + r[0];
    } else {
      var r := Split(rest, sep);
      assert a + rest == rest && a + r[0] == r[0];
      assert r == [r[0]] + r[1..];
    }
  }

  /** Splitting `a + [sep] + b` puts `a` in front of the pieces of `b`. */
  lemma SplitAtSeparator(a: string, b: string, sep: char)
    requires sep !in a
    ensures Split(a + [sep] + b, sep) == [a] + Split(b, sep)
  {
    assert a + [sep] + b == a + ([sep] + b);
    SplitPrefix(a, [sep] + b, sep);
    var t := [sep] + b;
    assert t[0] == sep && t[1..] == b;
    assert Split(t, sep) == [[]] + Split(b, sep);
    assert a + [] == a;
  }

  /** Joining pieces that hold no separator and splitting again gives the pieces back. */
  lemma {:induction false} SplitJoin(fields: seq<string>, sep: char)
    requires |fields| >= 1
    requires forall i :: 0 <= i < |fields| ==> sep !in fields[i]
    ensures Split(Join(fields, sep), sep) == fields
    decreases |fields|
  {
    if |fields| == 1 {
      SplitPrefix(fields[0], [], sep);
      assert fields[0] + [] == fields[0];
    } else {
      SplitJoin(fields[1..], sep);
      SplitAtSeparator(fields[0], Join(fields[1..], sep), sep);
      assert [fields[0]] + fields[1..] == fields;
    }
  }

  /** Splitting and joining with the same separator gives the string back. */
  lemma {:induction false} JoinSplit(s: string, sep: char)
    ensures Join(Split(s, sep), sep) == s
    decreases |s|
  {
    if s != [] {
      JoinSplit(s[1..], sep);
      var rest := Split(s[1..], sep);
      if s[0] == sep {
        assert ([[]] + rest)[1..] == rest;
      } else {
        var f := [[s[0]] + rest[0]] + rest[1..];
        assert f[1..] == rest[1..];
        if |rest| > 1 {
          assert Join(rest, sep) == rest[0] + [sep] + Join(rest[1..], sep);
        }
      }
    }
  }

  // ---------------------------------------------------------------- str(n) / int(s)

  predicate IsDigit(c: char) { '0' <= c <= '9' }

  predicate AllDigits(s: string) { forall i :: 0 <= i < |s| ==> IsDigit(s[i]) }

  function DigitChar(d: nat): (c: char)
    requires d < 10
    ensures IsDigit(c) && c as int - '0' as int == d
  {
    ('0' as int + d) as char
  }

  /** `str(n)` for `n >= 0`: its decimal digits, most significant first,
      with no leading zero unless `n` is 0. */
  function Str(n: nat): (s: string)
    ensures |s| >= 1 && AllDigits(s)
    ensures s[0] == '0' ==> n == 0
  {
    if n < 10 then [DigitChar(n)] else Str(n / 10) + [DigitChar(n % 10)]
  }

  /** The number a run of decimal digits denotes. */
  function DigitsValue(s: string): nat
    requires AllDigits(s)
  {
    if s == [] then 0
    else DigitsValue(s[..|s| - 1]) * 10 + (s[|s| - 1] as int - '0' as int)
  }

  /** `int(s)` on a decimal literal with an optional sign; `None` is the
      `ValueError` Python raises for anything else. */
  function Int(s: string): (r: Option<int>)
    ensures r.Some? <==>
      |s| >= 1 && AllDigits(s[1..]) && (IsDigit(s[0]) || (|s| >= 2 && (s[0] == '+' || s[0] == '-')))
    ensures |s| >= 1 && AllDigits(s) ==> r == Some(DigitsValue(s))
    ensures r.Some? && !IsDigit(s[0]) ==>
      r.value == (if s[0] == '-' then -(DigitsValue(s[1..]) as int) else DigitsValue(s[1..]) as int)
  {
    if |s| >= 2 && (s[0] == '+' || s[0] == '-') && AllDigits(s[1..]) then
      var v: int := DigitsValue(s[1..]);
      Some(if s[0] == '-' then -v else v)
    else if |s| >= 1 && AllDigits(s) then Some(DigitsValue(s))
    else None
  }

  lemma {:induction false} DigitsValueStr(n: nat)
    ensures DigitsValue(Str(n)) == n
  {
    if n >= 10 {
      DigitsValueStr(n / 10);
      var s := Str(n);
      assert s[..|s| - 1] == Str(n / 10);
    }
  }

  /** `int(str(n)) == n`. */
  lemma IntStr(n: nat)
    ensures Int(Str(n)) == Some(n)
  {
    DigitsValueStr(n);
  }

  // ---------------------------------------------------------------- bytes to text

  /** `b.decode()` for ASCII data: one character per byte. */
  function Decode(b: seq<byte>): (s: string)
    ensures |s| == |b|
    ensures forall i :: 0 <= i < |b| ==> s[i] as int == b[i] as int
  {
    if b == [] then [] else [(b[0] as int) as char] + Decode(b[1..])
  }

  predicate Printable(c: char) { ' ' <= c <= '~' }

  function HexDigit(d: nat): (c: char)
    requires d < 16
    ensures Printable(c)
  {
    "0123456789abcdef"[d]
  }

  /** How `repr` writes one byte inside a bytes literal quoted with `q`. */
  function EscapeByte(x: byte, q: char): (e: string)
    requires q == '\'' || q == '"'
    ensures 1 <= |e| <= 4 && forall i :: 0 <= i < |e| ==> Printable(e[i])
    ensures |e| == 1 <==> 32 <= x < 127 && x as int != q as int && x != 92
  {
    if x as int == q as int || x == 92 then ['\\', x as int as char]
    else if x == 9 then "\\t"
    else if x == 10 then "\\n"
    else if x == 13 then "\\r"
    else if x < 32 || x >= 127 then ['\\', 'x', HexDigit(x as int / 16), HexDigit(x as int % 16)]
    else [x as int as char]
  }

  function EscapeBytes(b: seq<byte>, q: char): (e: string)
    requires q == '\'' || q == '"'
    ensures |e| >= |b|
    ensures forall i :: 0 <= i < |e| ==> Printable(e[i])
  {
    if b == [] then [] else EscapeByte(b[0], q) + EscapeBytes(b[1..], q)
  }

  /** `str(b)` for a bytes value `b` in Python 3, which is `repr(b)`: a `b`,
      a quote (double only when `b` holds a single quote and no double
      quote), the escaped bytes, the same quote. The result is one line of
      printable ASCII: a CR or LF the server sent shows as `\r`, `\n`. */
  function Repr(b: seq<byte>): (r: string)
    ensures |r| >= |b| + 3 && r[0] == 'b' && r[1] == r[|r| - 1]
    ensures r[1] == (if 39 in b && 34 !in b then '"' else '\'')
    ensures forall i :: 0 <= i < |r| ==> Printable(r[i])
  {
    var q := if 39 in b && 34 !in b then '"' else '\'';
    ['b', q] + EscapeBytes(b, q) + [q]
  }

  /** Bytes that `repr` writes as themselves: printable ASCII other than
      the single quote and the backslash. */
  predicate PlainBytes(b: seq<byte>)
  {
    forall i :: 0 <= i < |b| ==> 32 <= b[i] < 127 && b[i] != 39 && b[i] != 92
  }

  lemma {:induction false} EscapePlain(b: seq<byte>)
    requires PlainBytes(b)
    ensures EscapeBytes(b, '\'') == Decode(b)
  {
    if b != [] {
      assert PlainBytes(b[1..]) by {
        forall i | 0 <= i < |b[1..]| ensures 32 <= b[1..][i] < 127 && b[1..][i] != 39 && b[1..][i] != 92 {
          assert b[1..][i] == b[i + 1];
        }
      }
      EscapePlain(b[1..]);
    }
  }

  /** A plain reply such as `220 ready` is written by `str(bytes)` as
      `b'220 ready'`: its own characters between single quotes. */
  lemma ReprPlain(b: seq<byte>)
    requires PlainBytes(b)
    ensures Repr(b) == "b'" + Decode(b) + "'"
  {
    EscapePlain(b);
  }
}
