/** The GETFILE protocol: what the server and the client print and how each reads the other's header. */
module GetFile {
  import opened Collections
  import opened CStrings

  /** BUFSIZE */
  const BUFSIZE: nat := 10240

  const BLANK: set<char> := {' '}
  const LINE_END: set<char> := {'\r', '\n'}

  datatype Status = OK | FILE_NOT_FOUND | ERROR | INVALID

  function StatusName(status: Status): (name: string) {
    match status
    case OK => "OK"
    case FILE_NOT_FOUND => "FILE_NOT_FOUND"
    case ERROR => "ERROR"
    case INVALID => "INVALID"
  }

  /* ---------------------------------------------------------------- numbers */

  function Digit(d: nat): (c: char)
    requires d < 10
    ensures '0' <= c <= '9' && c as int == '0' as int + d
  {
    ('0' as int + d) as char
  }

  /** `%zu` of `printf`. */
  function Decimal(n: nat): (t: string)
    ensures t != [] && forall c :: c in t ==> '0' <= c <= '9'
  {
    if n < 10 then [Digit(n)] else Decimal(n / 10) + [Digit(n % 10)]
  }

  /** The number of the leading digits of t, read on from n. */
  function Number(t: string, n: nat): (r: nat)
    decreases |t|
  {
    if t == [] || !('0' <= t[0] <= '9') then n else Number(t[1..], 10 * n + (t[0] as int - '0' as int))
  }

  const SIZE_MAX: nat := 0xFFFF_FFFF_FFFF_FFFF

  /** `%zu` of `sscanf` at a text without sign or blanks in front; None leaves the variable as it is. */
  function Scanned(t: string): (r: Option<nat>) {
    if t == [] || !('0' <= t[0] <= '9') then None
    else Some(if Number(t, 0) <= SIZE_MAX then Number(t, 0) else SIZE_MAX)
  }

  lemma {:induction false} NumberConcat(t: string, u: string, n: nat)
    requires forall c :: c in t ==> '0' <= c <= '9'
    ensures Number(t + u, n) == Number(u, Number(t, n))
    decreases |t|
  {
    if t == [] {
      assert t + u == u;
    } else {
      assert (t + u)[1..] == t[1..] + u && t[0] in t;
      assert forall c :: c in t[1..] ==> c in t;
      NumberConcat(t[1..], u, 10 * n + (t[0] as int - '0' as int));
    }
  }

  /** What `printf` writes `sscanf` reads back. */
  lemma {:induction false} DecimalRoundTrip(n: nat)
    ensures Number(Decimal(n), 0) == n
    decreases n
  {
    if n >= 10 {
      DecimalRoundTrip(n / 10);
      NumberConcat(Decimal(n / 10), [Digit(n % 10)], 0);
    }
  }

  /* ---------------------------------------------------------------- the server's answer */

  /** `gfs_sendheader` */
  function Header(status: Status, length: nat): (text: string) {
    "GETFILE " + StatusName(status) + (if status == OK then " " + Decimal(length) else "") + "\r\n\r\n"
  }

  /** What the first receive makes of the request: a null pointer was followed, `gfc_perform` returned -1 or 0, or the
  header was OK and the body begins, with the file length and the number of body bytes received. */
  datatype Response = Crashed | Failed(status: Status) | Returned(status: Status) | Body(length: nat, received: int)

  /** The header part of `gfc_perform` on the buffer s of the first receive; `before` and `known` are the status and the
  file length of the request handle. */
  function ParseResponse(s: string, received: int, before: Status, known: nat): (r: Response) {
    var scheme := Strtok(s, 0, BLANK);
    var status := Strtok(scheme.buffer, scheme.next, BLANK);
    if scheme.start.None? then Crashed
    else if Text(status.buffer, scheme.start.value) != "GETFILE" then Failed(INVALID)
    else if status.start.None? then Crashed
    else if Text(status.buffer, status.start.value) == "OK" then
      var length := Strtok(status.buffer, status.next, LINE_END);
      if length.start.None? then Crashed
      else
        var digits := Text(length.buffer, length.start.value);
        var size := if known != 0 then known else if Scanned(digits).Some? then Scanned(digits).value else 0;
        var content := Strtok(length.buffer, length.next, LINE_END);
        Body(size, received - |Text(content.buffer, scheme.start.value)| - |Text(content.buffer, status.start.value)|
                   - |Text(content.buffer, length.start.value)| - 6)
    else
      var cut := Strtok(status.buffer, status.start.value, LINE_END);
      var name := Text(cut.buffer, status.start.value);
      var after := if name == "FILE_NOT_FOUND" then FILE_NOT_FOUND else if name == "ERROR" then ERROR
                   else if name == "INVALID" then INVALID else before;
      if after == INVALID then Failed(INVALID) else Returned(after)
  }

  lemma ToIntMinus(x: int, c: nat)
    ensures ToInt(ToInt(x) - c) == ToInt(x - c)
  {
  }

  function Sum(chunks: seq<nat>): (n: nat) {
    if chunks == [] then 0 else chunks[0] + Sum(chunks[1..])
  }

  lemma {:induction false} SumAppend(chunks: seq<nat>, c: nat)
    ensures Sum(chunks + [c]) == Sum(chunks) + c
    decreases |chunks|
  {
    if chunks == [] {
      assert chunks + [c] == [c];
    } else {
      assert (chunks + [c])[1..] == chunks[1..] + [c];
      SumAppend(chunks[1..], c);
    }
  }

  /** How many receives the loop makes when `left` bytes are missing: it stops when the 32-bit counter is 0 or the
  connection is closed. */
  function Used(left: int, chunks: seq<nat>): (k: nat)
    ensures k <= |chunks|
    decreases |chunks|
  {
    if ToInt(left) == 0 || chunks == [] then 0 else 1 + Used(left - chunks[0], chunks[1..])
  }

  /** Receives of at most BUFSIZE bytes that bring all that is left. */
  ghost predicate Brings(chunks: seq<nat>, left: nat) {
    Sum(chunks) == left && forall k :: 0 <= k < |chunks| ==> 0 < chunks[k] <= BUFSIZE
  }

  lemma {:induction false} SmallIsComplete(left: nat, chunks: seq<nat>)
    requires left < INT_RANGE && Brings(chunks, left)
    ensures Used(left, chunks) == |chunks|
    decreases |chunks|
  {
    if chunks != [] {
      assert Sum(chunks) >= chunks[0];
      SmallIsComplete(left - chunks[0], chunks[1..]);
    }
  }

  function Ones(n: nat): (chunks: seq<nat>) {
    if n == 0 then [] else [1] + Ones(n - 1)
  }

  lemma {:induction false} OnesBring(left: nat)
    ensures Brings(Ones(left), left) && |Ones(left)| == left
    decreases left
  {
    if left > 0 {
      OnesBring(left - 1);
      assert Ones(left)[1..] == Ones(left - 1);
    }
  }

  lemma OneLess(left: nat)
    requires left % INT_RANGE != 0
    ensures (left - 1) % INT_RANGE == left % INT_RANGE - 1
  {
  }

  lemma {:induction false} OnesStop(left: nat)
    ensures Used(left, Ones(left)) == left % INT_RANGE
    decreases left
  {
    if ToInt(left) != 0 {
      OneLess(left);
      OnesStop(left - 1);
      hide ToInt;
      assert Ones(left)[1..] == Ones(left - 1);
    }
  }

  /** The client receives everything, however the body is cut up, if and only if less than 4 GiB are missing after the
  first receive. */
  lemma CompleteIffSmall(left: nat)
    ensures (forall chunks :: Brings(chunks, left) ==> Used(left, chunks) == |chunks|) <==> left < 0x1_0000_0000
  {
    if left < INT_RANGE {
      forall chunks | Brings(chunks, left) ensures Used(left, chunks) == |chunks| {
        SmallIsComplete(left, chunks);
      }
    } else {
      OnesBring(left);
      OnesStop(left);
    }
  }

  /** The handle of a request. */
  class Handle {
    var status: Status
    var fileLength: nat
    var bytesReceived: int

    /** gfc_create */
    constructor ()
      ensures status == INVALID && fileLength == 0 && bytesReceived == 0
    {
      status, fileLength, bytesReceived := INVALID, 0, 0;
    }

    /** The first receive, cutting the buffer in place. */
    method ReceiveHeader(buffer: array<char>, received: int) returns (r: Response)
      requires buffer as object != this as object
      modifies this, buffer
      ensures r == ParseResponse(old(buffer[..]), received, old(status), old(fileLength))
      ensures r.Body? ==> status == OK && fileLength == r.length && bytesReceived == r.received
      ensures r.Failed? || r.Returned? ==> status == r.status && fileLength == old(fileLength)
    {
      hide Strtok;
      hide Text;
      hide Scanned;
      var scheme, save := StrtokInPlace(buffer, 0, BLANK);
      var token;
      token, save := StrtokInPlace(buffer, save, BLANK);
      if scheme == None {
        return Crashed;
      }
      var text := TextOf(buffer, scheme.value);
      if text != "GETFILE" {
        status := INVALID;
        return Failed(status);
      }
      if token == None {
        return Crashed;
      }
      text := TextOf(buffer, token.value);
      if text != "OK" {
        var _, _ := StrtokInPlace(buffer, token.value, LINE_END);
        text := TextOf(buffer, token.value);
        if text == "FILE_NOT_FOUND" {
          status := FILE_NOT_FOUND;
        }
        if text == "ERROR" {
          status := ERROR;
        }
        if text == "INVALID" {
          status := INVALID;
          return Failed(status);
        }
        if status == INVALID {
          return Failed(status);
        }
        return Returned(status);
      }
      status := OK;
      var length;
      length, save := StrtokInPlace(buffer, save, LINE_END);
      if length == None {
        return Crashed;
      }
      text := TextOf(buffer, length.value);
      if fileLength == 0 && Scanned(text).Some? {
        fileLength := Scanned(text).value;
      }
      var content;
      content, save := StrtokInPlace(buffer, save, LINE_END);
      var a := TextOf(buffer, scheme.value);
      var b := TextOf(buffer, token.value);
      var c := TextOf(buffer, length.value);
      bytesReceived := received - |a| - |b| - |c| - 6;
      return Body(fileLength, bytesReceived);
    }

    /** The later receives, of the given sizes; afterwards the server has closed the connection. */
    method ReceiveBody(chunks: seq<nat>) returns (result: int)
      modifies this`bytesReceived
      ensures var left := fileLength - old(bytesReceived);
              var used := Used(left, chunks);
              && result == (if ToInt(left - Sum(chunks[..used])) == 0 then 0 else -1)
              && bytesReceived == if result == 0 then old(bytesReceived) + Sum(chunks[..used]) else 0
    {
      var left, i := fileLength - bytesReceived, 0;
      var dataRemained := ToInt(left);
      ghost var sum := 0;
      assert chunks[0..] == chunks && chunks[..0] == [];
      while dataRemained != 0
        invariant i <= |chunks| && sum == Sum(chunks[..i]) && dataRemained == ToInt(left - sum)
        invariant bytesReceived == old(bytesReceived) + sum
        invariant Used(left, chunks) == i + Used(left - sum, chunks[i..])
        decreases |chunks| - i
      {
        if i == |chunks| {
          bytesReceived := 0;
          return -1;
        }
        SumAppend(chunks[..i], chunks[i]);
        assert chunks[..i] + [chunks[i]] == chunks[..i + 1];
        assert chunks[i..][0] == chunks[i] && chunks[i..][1..] == chunks[i + 1..];
        ToIntMinus(left - sum, chunks[i]);
        dataRemained := ToInt(dataRemained - chunks[i]);
        bytesReceived := bytesReceived + chunks[i];
        sum := sum + chunks[i];
        i := i + 1;
      }
      return 0;
    }
  }

  /* ---------------------------------------------------------------- the answer is read back */

  /** The buffer after a receive: the text and zeros up to its end. */
  function Filled(text: string, zeros: nat): (s: string) {
    text + seq(zeros, _ => NUL)
  }

  predicate Clean(w: string, delimiters: set<char>) {
    NUL !in w && forall c :: c in w ==> c !in delimiters
  }

  /** A clean piece of a buffer is a word in it. */
  lemma PieceIsWord(s: string, i: nat, w: string, delimiters: set<char>)
    requires i + |w| <= |s| && s[i..i + |w|] == w && Clean(w, delimiters)
    ensures Word(s, i, |w|, delimiters)
  {
    forall k | i <= k < i + |w| ensures s[k] != NUL && s[k] !in delimiters {
      assert s[k] == w[k - i] && w[k - i] in w;
    }
  }

  /** A word followed by a delimiter, cut off. */
  lemma CutToken(s: string, i: nat, w: string, delimiters: set<char>)
    requires w != [] && i + |w| < |s| && s[i..i + |w|] == w && Clean(w, delimiters)
    requires s[i + |w|] in delimiters && NUL !in delimiters
    ensures Strtok(s, i, delimiters) == Token(Some(i), i + |w| + 1, s[i + |w| := NUL])
  {
    PieceIsWord(s, i, w, delimiters);
    NextToken(s, i, |w|, delimiters);
  }

  /** A piece of a buffer that ends with a zero is a string. */
  lemma PieceIsText(s: string, i: nat, w: string)
    requires i + |w| <= |s| && s[i..i + |w|] == w && NUL !in w && (i + |w| == |s| || s[i + |w|] == NUL)
    ensures Text(s, i) == w
  {
    PieceIsWord(s, i, w, {});
    TextWord(s, i, |w|);
  }

  lemma NameIsClean(status: Status)
    ensures StatusName(status) != [] && Clean(StatusName(status), BLANK + LINE_END)
  {
    assert StatusName(status) in {"OK", "FILE_NOT_FOUND", "ERROR", "INVALID"};
  }

  /** A line that `strtok` cuts into a scheme and a rest. */
  function Answer(rest: string): (s: string) {
    "GETFILE" + " " + rest
  }

  lemma SchemeToken(rest: string)
    ensures var s := Answer(rest);
            && |s| == 8 + |rest| && s[..7] == "GETFILE" && s[7] == ' ' && s[8..] == rest
            && Strtok(s, 0, BLANK) == Token(Some(0), 8, s[7 := NUL])
  {
    var s := Answer(rest);
    assert s[0..7] == "GETFILE";
    CutToken(s, 0, "GETFILE", BLANK);
  }

  /** A line of a scheme and one more word, which ends the header. */
  function Refusal(scheme: string, name: string, rest: string): (s: string) {
    scheme + " " + (name + "\r\n\r\n" + rest)
  }

  lemma RefusalPieces(scheme: string, name: string, rest: string)
    ensures var s, i, line := Refusal(scheme, name, rest), |scheme| + 1, name + "\r\n\r\n";
            && |s| == i + |line| + |rest| && s[0..i - 1] == scheme && s[i - 1] == ' ' && s[i..i + |line|] == line
  {
    var s, i, line := Refusal(scheme, name, rest), |scheme| + 1, name + "\r\n\r\n";
    assert s[i..] == line + rest;
    assert s[i..i + |line|] == s[i..][..|line|];
  }

  /** Its second token begins with the line and goes on to the next blank or zero. */
  lemma LineToken(scheme: string, name: string, rest: string)
    requires scheme != [] && Clean(scheme, BLANK) && name != [] && Clean(name + "\r\n\r\n", BLANK)
    ensures var s, i, line := Refusal(scheme, name, rest), |scheme| + 1, name + "\r\n\r\n";
            && |s| == i + |line| + |rest|
            && Strtok(s, 0, BLANK) == Token(Some(0), i, s[i - 1 := NUL])
            && var t := Strtok(s[i - 1 := NUL], i, BLANK);
               && t.start == Some(i) && |t.buffer| == |s|
               && t.buffer[0..i - 1] == scheme && t.buffer[i - 1] == NUL && t.buffer[i..i + |line|] == line
  {
    RefusalPieces(scheme, name, rest);
    var s, i, line := Refusal(scheme, name, rest), |scheme| + 1, name + "\r\n\r\n";
    hide Refusal;
    hide Skip;
    hide Scan;
    CutToken(s, 0, scheme, BLANK);
    var s1 := s[i - 1 := NUL];
    assert s1[i..i + |line|] == line && s1[0..i - 1] == scheme;
    PieceIsWord(s1, i, line, BLANK);
    TokenFrom(s1, i, |line|, BLANK);
    hide Strtok;
    var s2 := Strtok(s1, i, BLANK).buffer;
    assert s2[0..i - 1] == s2[..i + |line|][0..i - 1] && s2[i..i + |line|] == s2[..i + |line|][i..];
    assert s2[i - 1] == s2[..i + |line|][i - 1];
  }

  /** Restarted at the status, `strtok` cuts it at the end of the line. */
  lemma LineCut(s: string, i: nat, name: string)
    requires name != [] && Clean(name, BLANK + LINE_END)
    requires |s| >= i + |name| + 4 && s[i..i + |name| + 4] == name + "\r\n\r\n"
    ensures Strtok(s, i, LINE_END) == Token(Some(i), i + |name| + 1, s[i + |name| := NUL])
    ensures Text(s[i + |name| := NUL], i) == name && |Text(s, i)| >= |name| + 4
  {
    hide Skip;
    hide Scan;
    hide Strtok;
    hide Text;
    var line := name + "\r\n\r\n";
    assert s[i..i + |name|] == line[..|name|] == name;
    assert s[i + |name|] == line[|name|] == '\r';
    CutToken(s, i, name, LINE_END);
    PieceIsText(s[i + |name| := NUL], i, name);
    forall k | i <= k < i + |name| + 4 ensures s[k] != NUL {
      assert s[k] == line[k - i];
    }
    TextPast(s, i, |name| + 4);
  }

  /** What the client makes of a header without a length, whatever follows it: another scheme is invalid, three names set
  the status, and any other name leaves it as it was. */
  lemma RefusalIsRead(scheme: string, name: string, rest: string, received: int, before: Status, known: nat)
    requires scheme != [] && Clean(scheme, BLANK) && name != [] && Clean(name, BLANK + LINE_END)
    ensures ParseResponse(Refusal(scheme, name, rest), received, before, known)
         == if scheme != "GETFILE" || name == "INVALID" then Failed(INVALID)
            else if name == "FILE_NOT_FOUND" then Returned(FILE_NOT_FOUND)
            else if name == "ERROR" then Returned(ERROR)
            else if before == INVALID then Failed(INVALID) else Returned(before)
  {
    CleanLine(name);
    LineToken(scheme, name, rest);
    var s, i := Refusal(scheme, name, rest), |scheme| + 1;
    var s2 := Strtok(s[i - 1 := NUL], i, BLANK).buffer;
    PieceIsText(s2, 0, scheme);
    LineCut(s2, i, name);
    hide Refusal;
    hide Strtok;
    hide Text;
  }

  lemma CleanLine(name: string)
    requires Clean(name, BLANK + LINE_END)
    ensures Clean(name + "\r\n\r\n", BLANK)
  {
    assert Clean("\r\n\r\n", BLANK);
  }

  /** What `strtok` leaves alone in front of it stays the same string. */
  lemma EarlierText(s: string, from: nat, delimiters: set<char>, i: nat, w: string)
    requires from <= |s| && i + |w| < from && s[i..i + |w|] == w && NUL !in w && s[i + |w|] == NUL
    ensures Text(Strtok(s, from, delimiters).buffer, i) == w
  {
    StrtokWrites(s, from, delimiters);
    var t := Strtok(s, from, delimiters).buffer;
    assert t[i..i + |w|] == w;
    PieceIsText(t, i, w);
  }

  lemma DigitsClean(n: nat)
    ensures Clean(Decimal(n), BLANK + LINE_END)
  {
  }

  /** The three tokens of an OK answer. */
  lemma OkTokens(digits: string, tail: string)
    requires digits != [] && Clean(digits, BLANK + LINE_END) && tail != [] && tail[0] == '\r'
    ensures var s := Answer("OK " + digits + tail);
            var s2 := s[7 := NUL][10 := NUL];
            && |s| == 11 + |digits| + |tail|
            && Strtok(s[7 := NUL], 8, BLANK) == Token(Some(8), 11, s2)
            && Strtok(s2, 11, LINE_END) == Token(Some(11), 12 + |digits|, s2[11 + |digits| := NUL])
            && s2[0..7] == "GETFILE" && s2[8..10] == "OK" && s2[11..11 + |digits|] == digits && s2[7] == s2[10] == NUL
  {
    var rest := "OK " + digits + tail;
    SchemeToken(rest);
    var s := Answer(rest);
    hide Answer;
    hide Skip;
    hide Scan;
    hide Strtok;
    hide Text;
    var s1 := s[7 := NUL];
    assert s1[8..] == rest;
    assert s1[8..10] == rest[..2] == "OK";
    assert s1[10] == rest[2] == ' ';
    CutToken(s1, 8, "OK", BLANK);
    var s2 := s1[10 := NUL];
    assert s2[11..] == rest[3..] == digits + tail;
    assert s2[11..11 + |digits|] == digits;
    assert s2[11 + |digits|] == tail[0];
    CutToken(s2, 11, digits, LINE_END);
  }

  /** The three strings of an OK answer, after each call that the parser compares or measures them at. */
  lemma OkTexts(digits: string, tail: string)
    requires digits != [] && Clean(digits, BLANK + LINE_END) && tail != [] && tail[0] == '\r'
    ensures var s := Answer("OK " + digits + tail);
            && |s| == 11 + |digits| + |tail|
            && var s2 := s[7 := NUL][10 := NUL];
               var s3 := s2[11 + |digits| := NUL];
               var s4 := Strtok(s3, 12 + |digits|, LINE_END).buffer;
               && Text(s2, 0) == Text(s4, 0) == "GETFILE"
               && Text(s2, 8) == Text(s4, 8) == "OK"
               && Text(s3, 11) == Text(s4, 11) == digits
  {
    OkTokens(digits, tail);
    var s := Answer("OK " + digits + tail);
    hide Answer;
    hide Strtok;
    hide Text;
    var s2 := s[7 := NUL][10 := NUL];
    var s3 := s2[11 + |digits| := NUL];
    PieceIsText(s2, 0, "GETFILE");
    PieceIsText(s2, 8, "OK");
    assert s3[0..7] == s2[0..7] && s3[8..10] == s2[8..10] && s3[11..11 + |digits|] == s2[11..11 + |digits|];
    PieceIsText(s3, 11, digits);
    EarlierText(s3, 12 + |digits|, LINE_END, 0, "GETFILE");
    EarlierText(s3, 12 + |digits|, LINE_END, 8, "OK");
    EarlierText(s3, 12 + |digits|, LINE_END, 11, digits);
  }

  lemma ParsesAsOk(s: string, received: int, before: Status, known: nat, digits: string, length: nat)
    requires |s| > 11 + |digits| && Scanned(digits) == Some(length)
    requires var s1 := s[7 := NUL];
             var s2 := s1[10 := NUL];
             var s3 := s2[11 + |digits| := NUL];
             var s4 := Strtok(s3, 12 + |digits|, LINE_END).buffer;
             && Strtok(s, 0, BLANK) == Token(Some(0), 8, s1) && Strtok(s1, 8, BLANK) == Token(Some(8), 11, s2)
             && Strtok(s2, 11, LINE_END) == Token(Some(11), 12 + |digits|, s3)
             && Text(s2, 0) == Text(s4, 0) == "GETFILE" && Text(s2, 8) == Text(s4, 8) == "OK"
             && Text(s3, 11) == Text(s4, 11) == digits
    ensures ParseResponse(s, received, before, known) == Body(if known != 0 then known else length, received - |digits| - 15)
  {
    hide Strtok;
    hide Text;
    hide Scanned;
  }

  /** An OK answer gives the number of body bytes after the blank line and, unless a length is known, the number its third
  word begins with, however long it is; what follows the digits does not matter. */
  lemma OkIsRead(n: nat, rest: string, tail: string, received: int, before: Status, known: nat)
    requires Clean(rest, BLANK + LINE_END) && (rest != [] ==> !('0' <= rest[0] <= '9')) && tail != [] && tail[0] == '\r'
    ensures ParseResponse(Answer("OK " + (Decimal(n) + rest) + tail), received, before, known)
         == Body(if known != 0 then known else if n < 0x1_0000_0000_0000_0000 then n else 0xFFFF_FFFF_FFFF_FFFF,
                 received - |Decimal(n) + rest| - 15)
  {
    hide Strtok;
    hide Text;
    hide ParseResponse;
    hide Answer;
    var word := Decimal(n) + rest;
    DigitsClean(n);
    DecimalRoundTrip(n);
    NumberConcat(Decimal(n), rest, 0);
    assert word[0] == Decimal(n)[0] && Decimal(n)[0] in Decimal(n);
    hide Decimal;
    hide Scanned;
    SchemeToken("OK " + word + tail);
    OkTokens(word, tail);
    OkTexts(word, tail);
    ScannedWord(word, n);
    ParsesAsOk(Answer("OK " + word + tail), received, before, known, word, Scanned(word).value);
  }

  lemma ScannedWord(word: string, n: nat)
    requires word != [] && '0' <= word[0] <= '9' && Number(word, 0) == n
    ensures Scanned(word) == Some(if n < 0x1_0000_0000_0000_0000 then n else 0xFFFF_FFFF_FFFF_FFFF)
  {
  }

  /** Every header the server prints is read back, when it is wholly in the first receive: the same status, the same
  length, unless one is known already, and as many body bytes as came after it, whatever they are and whatever the status
  was before. */
  lemma HeaderRoundTrip(status: Status, length: nat, body: string, zeros: nat, before: Status, known: nat)
    requires length < 0x1_0000_0000_0000_0000
    ensures var text := Header(status, length) + body;
            ParseResponse(Filled(text, zeros), |text|, before, known)
              == match status
                 case OK => Body(if known != 0 then known else length, |body|)
                 case INVALID => Failed(INVALID)
                 case _ => Returned(status)
  {
    if status == OK {
      OkFilled(length, body, zeros);
      assert Decimal(length) + "" == Decimal(length);
      OkIsRead(length, "", "\r\n\r\n" + (body + seq(zeros, _ => NUL)), |Header(OK, length) + body|, before, known);
    } else {
      OtherFilled(status, length, body, zeros);
      NameIsClean(status);
      assert Clean("GETFILE", BLANK);
      RefusalIsRead("GETFILE", StatusName(status), body + seq(zeros, _ => NUL), |Header(status, length) + body|, before, known);
    }
  }

  lemma OkFilled(length: nat, body: string, zeros: nat)
    ensures Filled(Header(OK, length) + body, zeros)
         == Answer("OK " + Decimal(length) + ("\r\n\r\n" + (body + seq(zeros, _ => NUL))))
    ensures |Header(OK, length) + body| == 15 + |Decimal(length)| + |body|
    ensures ("\r\n\r\n" + (body + seq(zeros, _ => NUL)))[0] == '\r'
  {
    hide Decimal;
    var digits, pad := Decimal(length), seq(zeros, _ => NUL);
    Reassociate("GETFILE ", "OK", " " + digits, "\r\n\r\n", body, pad);
    assert "GETFILE" + " " == "GETFILE ";
    assert "OK" + (" " + digits) == "OK " + digits;
  }

  lemma Reassociate(a: string, b: string, c: string, d: string, e: string, f: string)
    ensures a + b + c + d + e + f == a + (b + c + (d + (e + f)))
  {
  }

  lemma OtherFilled(status: Status, length: nat, body: string, zeros: nat)
    requires status != OK
    ensures Filled(Header(status, length) + body, zeros)
         == Refusal("GETFILE", StatusName(status), body + seq(zeros, _ => NUL))
  {
    var name, pad := StatusName(status), seq(zeros, _ => NUL);
    hide StatusName;
    Reassociate("GETFILE ", name, "", "\r\n\r\n", body, pad);
    assert "GETFILE" + " " == "GETFILE ";
    assert name + "" == name;
    assert name + ("\r\n\r\n" + (body + pad)) == name + "\r\n\r\n" + (body + pad);
  }
}
