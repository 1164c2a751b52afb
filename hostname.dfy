/** `get_hostname_from_http_request`: scan a NUL-terminated HTTP request for
    a line that starts with `Host: ` and copy what follows it, up to the
    line's CR LF, into the caller's `hostname` buffer of `hostname_size`
    characters (the Host header of section 5.4 of RFC 7230). */
module HttpHost {

  const NUL: char := '\0'
  const CR: char := '\r'
  const LF: char := '\n'
  const CRLF: seq<char> := "\r\n"
  const HOST_PREFIX: seq<char> := "Host: "

  /** `strlen`: the position of the first NUL. */
  function StrLen(s: seq<char>): (n: nat)
    requires NUL in s
    ensures n < |s| && s[n] == NUL && NUL !in s[..n]
  {
    if s[0] == NUL then 0
    else
      var m := StrLen(s[1..]);
      assert s[..m + 1] == [s[0]] + s[1..][..m];
      m + 1
  }

  /** The six characters from `i` on are `Host: `. */
  predicate HostHeaderAt(d: seq<char>, i: nat) {
    i + 6 <= |d| && d[i..i + 6] == HOST_PREFIX
  }

  /** Position `p` starts a line: the two characters before it are CR LF. */
  predicate LineStart(d: seq<char>, p: nat) {
    2 <= p <= |d| && d[p - 2] == CR && d[p - 1] == LF
  }

  /** A line that starts at `p` opens with `Host: `. */
  predicate HostLineAt(d: seq<char>, p: nat) {
    LineStart(d, p) && HostHeaderAt(d, p)
  }

  /** No line of `s` opens with `Host: `. */
  predicate NoHostLine(s: seq<char>) {
    forall p :: 0 <= p < |s| ==> !HostLineAt(s, p)
  }

  /** How a scan ends: the loop ran to the end of the string, the function
      returned after writing the terminator, or the copy read past the end
      of the buffer (undefined behaviour in the firmware). */
  datatype ScanEnd = Finished | Returned | OutOfBounds

  datatype Scan = Scan(hostname: seq<char>, end: ScanEnd)

  /** How the inner copy loop ends: at a CR LF (terminator written), after
      `hostname_size` characters (no terminator written), or by reading past
      the end of the buffer. */
  datatype CopyEnd = Terminated | Full | Overran

  datatype Copy = Copy(hostname: seq<char>, next: nat, end: CopyEnd)

  /** The inner `for (j ...)` loop from data position `i` and buffer
      position `j`: each step either stops at CR LF, writing NUL, or copies
      one character -- whatever it is, a NUL included. */
  function CopyValue(d: seq<char>, size: int, i: nat, j: nat, h: seq<char>): (c: Copy)
    requires size <= |h|
    ensures |c.hostname| == |h|
    ensures i <= c.next
    ensures forall k :: 0 <= k < |h| && (k < j || k >= size) ==> c.hostname[k] == h[k]
    decreases size - j
  {
    if size <= j then Copy(h, i, Full)
    else if |d| <= i || (d[i] == CR && |d| <= i + 1) then Copy(h, i, Overran)
    else if d[i] == CR && d[i + 1] == LF then Copy(h[j := NUL], i, Terminated)
    else CopyValue(d, size, i + 1, j + 1, h[j := d[i]])
  }

  /** The outer `for (i ...)` loop from position `i` with flag `eol`
      (`end_of_line`), over a string of length `n`. */
  function ScanFrom(d: seq<char>, n: nat, size: int, i: nat, eol: bool, h: seq<char>): (r: Scan)
    requires n < |d| && size <= |h|
    ensures |r.hostname| == |h|
    ensures forall k :: 0 <= k < |h| && size <= k ==> r.hostname[k] == h[k]
    decreases n - i
  {
    if n <= i then Scan(h, Finished)
    else if !eol then
      if d[i] == CR then ScanFrom(d, n, size, i + 2, d[i + 1] == LF, h)
      else ScanFrom(d, n, size, i + 1, false, h)
    else if HostHeaderAt(d, i) then
      var c := CopyValue(d, size, i + 6, 0, h);
      match c.end
      case Terminated => Scan(c.hostname, Returned)
      case Overran => Scan(c.hostname, OutOfBounds)
      case Full => ScanFrom(d, n, size, c.next + 1, false, c.hostname)
    else ScanFrom(d, n, size, i + 1, false, h)
  }

  /** The whole function on request `d` and buffer contents `h`. */
  function Extract(d: seq<char>, size: int, h: seq<char>): (r: Scan)
    requires NUL in d && size <= |h|
    ensures |r.hostname| == |h|
  {
    ScanFrom(d, StrLen(d), size, 0, false, h)
  }

  /** `HostHeaderAt` character by character, as the firmware tests it. */
  lemma HostHeaderChars(d: seq<char>, i: nat)
    ensures HostHeaderAt(d, i) <==>
      i + 6 <= |d| && d[i] == 'H' && d[i + 1] == 'o' && d[i + 2] == 's'
      && d[i + 3] == 't' && d[i + 4] == ':' && d[i + 5] == ' '
  {
    if i + 6 <= |d| {
      assert d[i..i + 6] == [d[i], d[i + 1], d[i + 2], d[i + 3], d[i + 4], d[i + 5]];
    }
  }

  // ---------------------------------------------------------------------
  // The firmware's loops.

  /** `get_hostname_from_http_request` on the `data` and `hostname` arrays;
      the returned outcome says how the scan ended. */
  method GetHostnameFromHttpRequest(data: array<char>, hostname: array<char>, hostnameSize: int)
    returns (end: ScanEnd)
    requires NUL in data[..]
    requires hostnameSize <= hostname.Length
    requires data != hostname
    modifies hostname
    ensures Scan(hostname[..], end) == Extract(data[..], hostnameSize, old(hostname[..]))
  {
    ghost var d := data[..];
    ghost var goal := Extract(d, hostnameSize, hostname[..]);
    var n := StrLen(data[..]);
    var eol := false;
    var i: nat := 0;
    while i < n
      invariant data[..] == d
      invariant ScanFrom(d, n, hostnameSize, i, eol, hostname[..]) == goal
      decreases n - i
    {
      if !eol {
        if data[i] == CR {
          i := i + 1;
          if data[i] == LF {
            eol := true;
          }
        }
      } else {
        eol := false;
        HostHeaderChars(d, i);
        if data[i] == 'H' && data[i + 1] == 'o' && data[i + 2] == 's'
           && data[i + 3] == 't' && data[i + 4] == ':' && data[i + 5] == ' '
        {
          ghost var c := CopyValue(d, hostnameSize, i + 6, 0, hostname[..]);
          i := i + 6;
          var j: nat := 0;
          while j < hostnameSize
            invariant data[..] == d
            invariant CopyValue(d, hostnameSize, i, j, hostname[..]) == c
            decreases hostnameSize - j
          {
            if i >= data.Length || (data[i] == CR && i + 1 >= data.Length) {
              return OutOfBounds;
            }
            if data[i] == CR && data[i + 1] == LF {
              hostname[j] := NUL;
              return Returned;
            }
            hostname[j] := data[i];
            i := i + 1;
            j := j + 1;
          }
        }
      }
      i := i + 1;
    }
    return Finished;
  }

  // ---------------------------------------------------------------------
  // What the scan finds.

  /** A line that is itself a Host header. */
  predicate IsHostLine(line: seq<char>) {
    |line| >= 6 && line[..6] == HOST_PREFIX
  }

  /** A header line other than Host: non-empty and without CR. */
  predicate OtherHeader(line: seq<char>) {
    line != [] && CR !in line && !IsHostLine(line)
  }

  /** Lines joined, each followed by CR LF. */
  function Lines(lines: seq<seq<char>>): (text: seq<char>)
    ensures lines == [] ==> text == []
  {
    if lines == [] then [] else lines[0] + CRLF + Lines(lines[1..])
  }

  /** The string length of a string followed by its terminator. */
  lemma StrLenOf(s: seq<char>, junk: seq<char>)
    requires NUL !in s
    ensures StrLen(s + [NUL] + junk) == |s|
  {
    var d := s + [NUL] + junk;
    assert d[|s|] == NUL && d[..|s|] == s;
  }

  /** When no line from position `i` on opens with `Host: `, the scan runs
      to the end of the string and leaves the buffer as it was. A `Host: `
      in the middle of a line does not matter. */
  lemma {:induction false} NoHostLineNoWrite(d: seq<char>, n: nat, size: int, i: nat, eol: bool, h: seq<char>)
    requires n < |d| && size <= |h|
    requires eol ==> LineStart(d, i)
    requires forall p :: i <= p < n ==> !HostLineAt(d, p)
    ensures ScanFrom(d, n, size, i, eol, h) == Scan(h, Finished)
    decreases n - i
  {
    if n <= i {
    } else if !eol {
      if d[i] == CR {
        NoHostLineNoWrite(d, n, size, i + 2, d[i + 1] == LF, h);
      } else {
        NoHostLineNoWrite(d, n, size, i + 1, false, h);
      }
    } else {
      assert !HostLineAt(d, i);
      NoHostLineNoWrite(d, n, size, i + 1, false, h);
    }
  }

  /** A request none of whose lines opens with `Host: ` leaves the buffer
      as it was, and the loop runs to the terminator. */
  lemma NoHostLineLeavesBuffer(d: seq<char>, size: int, h: seq<char>)
    requires NUL in d && size <= |h|
    requires forall p :: 0 <= p < StrLen(d) ==> !HostLineAt(d, p)
    ensures Extract(d, size, h) == Scan(h, Finished)
  {
    NoHostLineNoWrite(d, StrLen(d), size, 0, false, h);
  }

  /** In the middle of a line, the scan moves to the start of the next line
      at the first CR LF. */
  lemma {:induction false} SkipLine(d: seq<char>, n: nat, size: int, i: nat, k: nat, h: seq<char>)
    requires n < |d| && size <= |h|
    requires i <= k < n && d[k] == CR && d[k + 1] == LF
    requires forall p :: i <= p < k ==> d[p] != CR
    ensures ScanFrom(d, n, size, i, false, h) == ScanFrom(d, n, size, k + 2, true, h)
    decreases k - i
  {
    if i < k {
      SkipLine(d, n, size, i + 1, k, h);
    }
  }

  /** A header line other than Host is passed over. */
  lemma SkipHeader(d: seq<char>, n: nat, size: int, i: nat, line: seq<char>, h: seq<char>)
    requires n < |d| && size <= |h|
    requires OtherHeader(line)
    requires i + |line| < n && d[i..i + |line| + 2] == line + CRLF
    ensures ScanFrom(d, n, size, i, true, h) == ScanFrom(d, n, size, i + |line| + 2, true, h)
  {
    var k := i + |line|;
    assert d[k] == (line + CRLF)[|line|];
    assert d[k + 1] == (line + CRLF)[|line| + 1];
    if |line| >= 6 {
      assert d[i..i + 6] == d[i..i + |line| + 2][..6] == line[..6];
    } else {
      assert d[i + |line|] == CR;
      assert HOST_PREFIX[|line|] != CR;
    }
    assert !HostHeaderAt(d, i);
    forall p | i + 1 <= p < k
      ensures d[p] != CR
    {
      assert d[p] == d[i..i + |line| + 2][p - i] == (line + CRLF)[p - i] == line[p - i];
    }
    SkipLine(d, n, size, i + 1, k, h);
  }

  /** A run of header lines other than Host is passed over. */
  lemma {:induction false} SkipHeaders(d: seq<char>, n: nat, size: int, i: nat, lines: seq<seq<char>>, h: seq<char>)
    requires n < |d| && size <= |h|
    requires forall k :: 0 <= k < |lines| ==> OtherHeader(lines[k])
    requires i + |Lines(lines)| <= n && d[i..i + |Lines(lines)|] == Lines(lines)
    ensures ScanFrom(d, n, size, i, true, h) == ScanFrom(d, n, size, i + |Lines(lines)|, true, h)
    decreases |lines|
  {
    if lines != [] {
      var line, more := lines[0], lines[1..];
      var j := i + |line| + 2;
      var all := Lines(lines);
      assert all == line + CRLF + Lines(more);
      assert d[i..j] == all[..|line| + 2];
      assert d[j..j + |Lines(more)|] == all[|line| + 2..];
      SkipHeader(d, n, size, i, line, h);
      SkipHeaders(d, n, size, j, more, h);
    }
  }

  /** A value shorter than the buffer is copied and terminated. */
  lemma {:induction false} CopyShortValue(d: seq<char>, size: int, i0: nat, j: nat, v: seq<char>, h: seq<char>)
    requires size <= |h| && |v| < size
    requires i0 + |v| + 2 <= |d| && d[i0..i0 + |v| + 2] == v + CRLF
    requires CR !in v
    requires j <= |v| && h[..j] == v[..j]
    ensures CopyValue(d, size, i0 + j, j, h) == Copy(v + [NUL] + h[|v| + 1..], i0 + |v|, Terminated)
    decreases |v| - j
  {
    var i := i0 + j;
    assert d[i] == (v + CRLF)[j];
    if j == |v| {
      assert d[i + 1] == (v + CRLF)[j + 1];
      assert h[j := NUL] == v + [NUL] + h[|v| + 1..];
    } else {
      assert d[i] == v[j];
      var h' := h[j := v[j]];
      assert h'[..j + 1] == v[..j + 1];
      CopyShortValue(d, size, i0, j + 1, v, h');
      assert h'[|v| + 1..] == h[|v| + 1..];
    }
  }

  /** A value of `size` characters or more fills the buffer, with no
      terminator written. */
  lemma {:induction false} CopyLongValue(d: seq<char>, size: int, i0: nat, j: nat, v: seq<char>, h: seq<char>)
    requires 0 <= size <= |h| && size <= |v|
    requires i0 + |v| <= |d| && d[i0..i0 + |v|] == v
    requires CR !in v
    requires j <= size && h[..j] == v[..j]
    ensures CopyValue(d, size, i0 + j, j, h) == Copy(v[..size] + h[size..], i0 + size, Full)
    decreases size - j
  {
    if j == size {
      assert h == v[..size] + h[size..];
    } else {
      var i := i0 + j;
      assert d[i] == v[j];
      var h' := h[j := v[j]];
      assert h'[..j + 1] == v[..j + 1];
      CopyLongValue(d, size, i0, j + 1, v, h');
      assert h'[size..] == h[size..];
    }
  }

  /** A request line, header lines other than Host, then a Host line
      with value `v`, then the rest of the request. */
  function Request(requestLine: seq<char>, lines: seq<seq<char>>, v: seq<char>, rest: seq<char>): (text: seq<char>)
    ensures |text| == |requestLine| + 2 + |Lines(lines)| + 6 + |v| + 2 + |rest|
  {
    requestLine + CRLF + Lines(lines) + HOST_PREFIX + v + CRLF + rest
  }

  /** The position of each part of a request. */
  lemma RequestLayout(d: seq<char>, requestLine: seq<char>, lines: seq<seq<char>>,
                      v: seq<char>, rest: seq<char>, junk: seq<char>)
    requires d == Request(requestLine, lines, v, rest) + [NUL] + junk
    ensures var a := |requestLine|;
      var q := a + 2 + |Lines(lines)|;
      && d[..a] == requestLine && d[a] == CR && d[a + 1] == LF
      && d[a + 2..q] == Lines(lines)
      && d[q..q + 6] == HOST_PREFIX
      && d[q + 6..q + 6 + |v| + 2] == v + CRLF
      && d[q + 6..] == v + CRLF + rest + [NUL] + junk
  {
  }

  /** The scan passes over the request line and the other headers and
      reaches the Host line at the start of a line. */
  lemma ReachesHostLine(d: seq<char>, n: nat, size: int, requestLine: seq<char>,
                        lines: seq<seq<char>>, h: seq<char>)
    requires n < |d| && size <= |h|
    requires CR !in requestLine
    requires forall k :: 0 <= k < |lines| ==> OtherHeader(lines[k])
    requires |requestLine| + 2 + |Lines(lines)| < n
    requires var a := |requestLine|;
      && d[..a] == requestLine && d[a] == CR && d[a + 1] == LF
      && d[a + 2..a + 2 + |Lines(lines)|] == Lines(lines)
    ensures ScanFrom(d, n, size, 0, false, h)
            == ScanFrom(d, n, size, |requestLine| + 2 + |Lines(lines)|, true, h)
  {
    var a := |requestLine|;
    forall p | 0 <= p < a
      ensures d[p] != CR
    {
      assert d[p] == d[..a][p];
    }
    SkipLine(d, n, size, 0, a, h);
    SkipHeaders(d, n, size, a + 2, lines, h);
  }

  /** In a request whose request line is followed by header lines other
      than Host and then a Host line whose value is shorter than the buffer,
      the buffer receives the value and its terminator, and the function
      returns. The request line itself is never taken for a Host line. */
  lemma ExtractsHostValue(d: seq<char>, requestLine: seq<char>, lines: seq<seq<char>>,
                          v: seq<char>, rest: seq<char>, junk: seq<char>, size: int, h: seq<char>)
    requires d == Request(requestLine, lines, v, rest) + [NUL] + junk
    requires NUL !in Request(requestLine, lines, v, rest)
    requires CR !in requestLine && CR !in v
    requires forall k :: 0 <= k < |lines| ==> OtherHeader(lines[k])
    requires |v| < size <= |h|
    ensures Extract(d, size, h) == Scan(v + [NUL] + h[|v| + 1..], Returned)
  {
    StrLenOf(Request(requestLine, lines, v, rest), junk);
    var n := |Request(requestLine, lines, v, rest)|;
    var q := |requestLine| + 2 + |Lines(lines)|;
    RequestLayout(d, requestLine, lines, v, rest, junk);
    ReachesHostLine(d, n, size, requestLine, lines, h);
    ShortValueAfterPrefix(d, n, size, q, v, h);
  }

  /** From a Host line with a value shorter than the buffer, the scan copies
      the value, terminates it and returns. */
  lemma ShortValueAfterPrefix(d: seq<char>, n: nat, size: int, q: nat, v: seq<char>, h: seq<char>)
    requires q + 6 + |v| + 2 <= n < |d|
    requires d[q..q + 6] == HOST_PREFIX && d[q + 6..q + 6 + |v| + 2] == v + CRLF
    requires CR !in v && |v| < size <= |h|
    ensures ScanFrom(d, n, size, q, true, h) == Scan(v + [NUL] + h[|v| + 1..], Returned)
  {
    assert HostHeaderAt(d, q);
    CopyShortValue(d, size, q + 6, 0, v, h);
  }

  /** When the value has `size` characters or more and no line of the rest
      of the request is a Host line, the buffer ends up holding the first
      `size` characters of the value and no terminator. */
  lemma LongHostValueUnterminated(d: seq<char>, requestLine: seq<char>, lines: seq<seq<char>>,
                                  v: seq<char>, rest: seq<char>, junk: seq<char>, size: int, h: seq<char>)
    requires d == Request(requestLine, lines, v, rest) + [NUL] + junk
    requires NUL !in Request(requestLine, lines, v, rest)
    requires CR !in requestLine && CR !in v
    requires forall k :: 0 <= k < |lines| ==> OtherHeader(lines[k])
    requires NoHostLine(CRLF + rest)
    requires 0 <= size <= |v| && size <= |h|
    ensures Extract(d, size, h) == Scan(v[..size] + h[size..], Finished)
    ensures NUL !in Extract(d, size, h).hostname[..size]
  {
    StrLenOf(Request(requestLine, lines, v, rest), junk);
    var n := |Request(requestLine, lines, v, rest)|;
    var q := |requestLine| + 2 + |Lines(lines)|;
    RequestLayout(d, requestLine, lines, v, rest, junk);
    ReachesHostLine(d, n, size, requestLine, lines, h);
    LongValueAfterPrefix(d, n, size, q, v, rest, junk, h);
    NulNotInValue(requestLine, lines, v, rest);
    assert (v[..size] + h[size..])[..size] == v[..size];
  }

  /** The value of the Host line is part of the request. */
  lemma NulNotInValue(requestLine: seq<char>, lines: seq<seq<char>>, v: seq<char>, rest: seq<char>)
    requires NUL !in Request(requestLine, lines, v, rest)
    ensures NUL !in v
  {
    assert Request(requestLine, lines, v, rest)
        == (requestLine + CRLF + Lines(lines) + HOST_PREFIX) + v + (CRLF + rest);
  }

  /** From a Host line with a long value, followed by lines none of which
      is a Host line, the scan fills the buffer and runs to the end. */
  lemma LongValueAfterPrefix(d: seq<char>, n: nat, size: int, q: nat, v: seq<char>,
                             rest: seq<char>, junk: seq<char>, h: seq<char>)
    requires q + 6 <= |d| && d[q..q + 6] == HOST_PREFIX
    requires d[q + 6..] == v + CRLF + rest + [NUL] + junk
    requires n == q + 6 + |v| + 2 + |rest|
    requires CR !in v && NoHostLine(CRLF + rest)
    requires 0 <= size <= |v| && size <= |h|
    ensures n < |d|
    ensures ScanFrom(d, n, size, q, true, h) == Scan(v[..size] + h[size..], Finished)
  {
    ValueTailLayout(d, q + 6, v, rest, junk, n);
    NoHostLineAfterValue(d, q, v, n);
    LongValueFromHostLine(d, n, size, q, v, h);
  }

  /** The position of the value, the rest and the terminator after a Host
      line's prefix. */
  lemma ValueTailLayout(d: seq<char>, a: nat, v: seq<char>, rest: seq<char>, junk: seq<char>, n: nat)
    requires a <= |d| && d[a..] == v + CRLF + rest + [NUL] + junk
    requires n == a + |v| + 2 + |rest|
    ensures n < |d| && d[n] == NUL
    ensures d[a..a + |v|] == v && d[a + |v|..n] == CRLF + rest
  {
    var t := d[a..];
    assert d[a..a + |v|] == t[..|v|];
    assert d[a + |v|..n] == t[|v|..n - a];
    assert d[n] == t[n - a];
  }

  /** From a Host line with a long value and no later Host line, the scan
      fills the buffer and runs to the end of the string. */
  lemma LongValueFromHostLine(d: seq<char>, n: nat, size: int, q: nat, v: seq<char>, h: seq<char>)
    requires n < |d| && 0 <= size <= |h| && size <= |v|
    requires q + 6 + |v| <= n
    requires d[q..q + 6] == HOST_PREFIX && d[q + 6..q + 6 + |v|] == v && CR !in v
    requires forall p :: q + 6 < p < n ==> !HostLineAt(d, p)
    ensures ScanFrom(d, n, size, q, true, h) == Scan(v[..size] + h[size..], Finished)
  {
    assert HostHeaderAt(d, q);
    CopyLongValue(d, size, q + 6, 0, v, h);
    NoHostLineNoWrite(d, n, size, q + 6 + size + 1, false, v[..size] + h[size..]);
  }

  /** After a Host line's value, a line of `d` that opens with `Host: `
      before the terminator at `n` is one of `d[q + 6 + |v|..n]`. */
  lemma NoHostLineAfterValue(d: seq<char>, q: nat, v: seq<char>, n: nat)
    requires q + 6 + |v| <= n < |d| && d[n] == NUL
    requires d[q..q + 6] == HOST_PREFIX && d[q + 6..q + 6 + |v|] == v && CR !in v
    requires NoHostLine(d[q + 6 + |v|..n])
    ensures forall p :: q + 6 < p < n ==> !HostLineAt(d, p)
  {
    var b := q + 6 + |v|;
    forall k | q + 5 <= k < b
      ensures d[k] != CR
    {
      if k == q + 5 {
        assert d[k] == d[q..q + 6][5];
      } else {
        assert d[k] == d[q + 6..b][k - q - 6];
      }
    }
    forall p | q + 6 < p < n
      ensures !HostLineAt(d, p)
    {
      if LineStart(d, p) {
        assert d[p - 2] == CR;
        SliceHostLine(d, b, n, p);
      }
    }
  }

  /** A line from `b + 2` on that opens with `Host: ` before the
      terminator at `n` is also one of `d[b..n]`. */
  lemma SliceHostLine(d: seq<char>, b: nat, n: nat, p: nat)
    requires b + 2 <= p < n < |d| && d[n] == NUL
    ensures HostLineAt(d, p) ==> HostLineAt(d[b..n], p - b)
  {
    var t := d[b..n];
    assert t[p - b - 2] == d[p - 2] && t[p - b - 1] == d[p - 1];
    if HostHeaderAt(d, p) {
      HostHeaderBeforeNul(d, n, p);
      forall k | 0 <= k < 6
        ensures t[p - b + k] == HOST_PREFIX[k]
      {
        assert t[p - b + k] == d[p + k] == d[p..p + 6][k];
      }
      assert t[p - b..p - b + 6] == HOST_PREFIX;
    }
  }

  /** A `Host: ` that starts at or before a NUL ends before it. */
  lemma HostHeaderBeforeNul(d: seq<char>, n: nat, p: nat)
    requires p <= n < |d| && d[n] == NUL && HostHeaderAt(d, p)
    ensures p + 6 <= n
  {
    forall k | p <= k < p + 6
      ensures d[k] != NUL
    {
      assert d[k] == d[p..p + 6][k - p] == HOST_PREFIX[k - p];
    }
  }
}
