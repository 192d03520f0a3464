/** The address scan `pasv` runs over the PASV reply:
    `re.search(r"\d{1,3},\d{1,3},\d{1,3},\d{1,3},\d{1,3}", response).group()`.
    The pattern has FIVE `\d{1,3}` numbers, one short of the six of a PASV reply
    `227 Entering Passive Mode (h1,h2,h3,h4,p1,p2)`, so whatever it finds
    splits into five fields and `addr_to_ip_and_port` refuses it. */
module PasvScan {
  import opened PyBuiltins
  import opened AddrCodec

  /** The number of consecutive decimal digits of `s` from index `i`. */
  function DigitRun(s: string, i: nat): (n: nat)
    requires i <= |s|
    ensures i + n <= |s|
    ensures forall k :: i <= k < i + n ==> IsDigit(s[k])
    ensures i + n < |s| ==> !IsDigit(s[i + n])
    decreases |s| - i
  {
    if i < |s| && IsDigit(s[i]) then 1 + DigitRun(s, i + 1) else 0
  }

  /** `\d{1,3},` matched at `i`, giving the index after the comma. The comma
      is not a digit, so however the greedy `\d{1,3}` backtracks it can only end
      where the run of digits ends: the whole run must be one to three long. */
  function GroupComma(s: string, i: nat): (e: Option<nat>)
    requires i <= |s|
    ensures e.Some? ==> i + 2 <= e.value <= i + 4 && e.value <= |s|
    ensures e.Some? ==> s[e.value - 1] == ',' && AllDigits(s[i..e.value - 1])
  {
    var n := DigitRun(s, i);
    if 1 <= n <= 3 && i + n < |s| && s[i + n] == ',' then
      Some(i + n + 1)
    else None
  }

  /** The final `\d{1,3}`: greedy, so up to three digits. */
  function LastGroup(s: string, i: nat): (e: Option<nat>)
    requires i <= |s|
    ensures e.Some? ==> i + 1 <= e.value <= i + 3 && e.value <= |s| && AllDigits(s[i..e.value])
  {
    var n := DigitRun(s, i);
    if n == 0 then None
    else
      var m := if n < 3 then n else 3;
      Some(i + m)
  }

  /** The final `\d{1,3}` is there exactly when a digit follows, and it is
      greedy: it stops after three digits or at the first non-digit. */
  lemma LastGroupGreedy(s: string, i: nat)
    requires i <= |s|
    ensures LastGroup(s, i).Some? <==> i < |s| && IsDigit(s[i])
    ensures LastGroup(s, i).Some? ==>
      var e := LastGroup(s, i).value;
      e == i + 3 || e == |s| || !IsDigit(s[e])
  {
  }

  /** Conversely, one to three digits followed by a comma match `\d{1,3},`. */
  lemma GroupCommaMatches(s: string, i: nat, j: nat)
    requires i < j <= i + 3 && j < |s|
    requires AllDigits(s[i..j]) && s[j] == ','
    ensures GroupComma(s, i) == Some(j + 1)
  {
  }

  /** The end of a match of the whole pattern starting exactly at `i`:
      four pieces of two to four characters, then one of one to three. */
  function MatchAt(s: string, i: nat): (e: Option<nat>)
    requires i <= |s|
    ensures e.Some? ==> i + 9 <= e.value <= i + 19 && e.value <= |s|
  {
    match GroupComma(s, i)
    case None => None
    case Some(i1) =>
      match GroupComma(s, i1)
      case None => None
      case Some(i2) =>
        match GroupComma(s, i2)
        case None => None
        case Some(i3) =>
          match GroupComma(s, i3)
          case None => None
          case Some(i4) => LastGroup(s, i4)
  }

  /** `re.search(pattern, s[i..])`: the leftmost match, or `None` (where the
      source's `.group()` then raises `AttributeError`). */
  function Search(s: string, i: nat): (r: Option<string>)
    requires i <= |s|
    ensures r.Some? ==> 9 <= |r.value| <= 19
    decreases |s| - i
  {
    match MatchAt(s, i)
    case Some(e) => Some(s[i..e])
    case None => if i == |s| then None else Search(s, i + 1)
  }

  /** The search fails exactly when the pattern matches at no position. */
  lemma SearchNone(s: string, i: nat)
    requires i <= |s|
    ensures Search(s, i).None? <==> forall j :: i <= j <= |s| ==> MatchAt(s, j).None?
  {
    if Search(s, i).None? {
      NoneMeansNoMatch(s, i);
    } else {
      SearchFirst(s, i);
    }
  }

  /** A failed search saw no match at any position. */
  lemma {:induction false} NoneMeansNoMatch(s: string, i: nat)
    requires i <= |s| && Search(s, i).None?
    ensures forall j :: i <= j <= |s| ==> MatchAt(s, j).None?
    decreases |s| - i
  {
    if i < |s| {
      NoneMeansNoMatch(s, i + 1);
    }
  }

  /** A successful search returns the match at the first position where there is one. */
  lemma {:induction false} SearchFirst(s: string, i: nat)
    requires i <= |s| && Search(s, i).Some?
    ensures exists j ::
      && i <= j <= |s| && MatchAt(s, j).Some?
      && Search(s, i).value == s[j..MatchAt(s, j).value]
      && (forall k :: i <= k < j ==> MatchAt(s, k).None?)
    decreases |s| - i
  {
    if MatchAt(s, i).None? {
      SearchFirst(s, i + 1);
      var j :|
        && i + 1 <= j <= |s| && MatchAt(s, j).Some?
        && Search(s, i + 1).value == s[j..MatchAt(s, j).value]
        && (forall k :: i + 1 <= k < j ==> MatchAt(s, k).None?);
      assert forall k :: i <= k < j ==> MatchAt(s, k).None?;
    }
  }

  /** Cutting a leading `\d{1,3},` match off a slice. */
  lemma SplitGroup(s: string, i: nat, j: nat, e: nat)
    requires i <= |s| && GroupComma(s, i) == Some(j) && j <= e <= |s|
    ensures Split(s[i..e], ',') == [s[i..j - 1]] + Split(s[j..e], ',')
  {
    assert s[i..e] == s[i..j - 1] + [','] + s[j..e];
    assert ',' !in s[i..j - 1] by {
      assert AllDigits(s[i..j - 1]);
    }
    SplitAtSeparator(s[i..j - 1], s[j..e], ',');
  }

  /** Every match starting at `i` is five comma-separated fields. */
  lemma MatchFields(s: string, i: nat, e: nat)
    requires i <= |s| && MatchAt(s, i) == Some(e)
    ensures |Split(s[i..e], ',')| == 5
  {
    var i1 := GroupComma(s, i).value;
    var i2 := GroupComma(s, i1).value;
    var i3 := GroupComma(s, i2).value;
    var i4 := GroupComma(s, i3).value;
    assert LastGroup(s, i4) == Some(e);
    SplitGroup(s, i, i1, e);
    SplitGroup(s, i1, i2, e);
    SplitGroup(s, i2, i3, e);
    SplitGroup(s, i3, i4, e);
    assert ',' !in s[i4..e] by {
      assert AllDigits(s[i4..e]);
    }
    SplitPrefix(s[i4..e], [], ',');
    assert s[i4..e] + [] == s[i4..e];
  }

  /** Whatever the scan finds is five comma-separated fields. */
  lemma {:induction false} SearchFields(s: string, i: nat)
    requires i <= |s| && Search(s, i).Some?
    ensures |Split(Search(s, i).value, ',')| == 5
    decreases |s| - i
  {
    match MatchAt(s, i)
    case Some(e) => MatchFields(s, i, e);
    case None => SearchFields(s, i + 1);
  }

  /** `pasv` can never decode the address it scanned: on every reply text
      the scan either finds nothing or finds an address that
      `addr_to_ip_and_port` answers with its "invalid addr" string. */
  lemma PasvAddrAlwaysRefused(response: string)
    ensures Search(response, 0).Some? ==>
      AddrToIpAndPort(Search(response, 0).value) == Invalid(InvalidAddr)
  {
    if Search(response, 0).Some? {
      SearchFields(response, 0);
    }
  }
}
