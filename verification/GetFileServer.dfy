/** The first request a GETFILE server receives: put together from any fragments and cut up in place. */
module GetFileServer {
  import opened Collections
  import opened CStrings
  import opened GetFile

  /** What the client prints. */
  function RequestText(path: string): (text: string) {
    "GETFILE GET " + path + "\r\n\r\n"
  }

  /** The client's `msg` has room for 100 characters and the zero. */
  const MESSAGE_SIZE: nat := 100

  /** The longest text that fits is `GETFILE GET`, a path of 83 characters and the blank line. */
  ghost predicate ValidPath(path: string) {
    && path != [] && path[0] == '/'
    && NUL !in path && '\r' !in path && '\n' !in path
    && |path| < 84
  }

  /** A null pointer was followed, the server answered INVALID, or it called the handler with a path. */
  datatype Request = Broken | Rejected | Accepted(path: string)

  /** The parser of `gfserver_serve`. */
  function ParseRequest(s: string): (r: Request) {
    var scheme := Strtok(s, 0, BLANK);
    var verb := Strtok(scheme.buffer, scheme.next, BLANK);
    var path := Strtok(verb.buffer, verb.next, LINE_END);
    if scheme.start.None? || verb.start.None? || path.start.None? then Broken
    else
      var text := Text(path.buffer, path.start.value);
      if Text(scheme.buffer, scheme.start.value) == "GETFILE" && Text(verb.buffer, verb.start.value) == "GET"
         && text != [] && text[0] == '/'
      then Accepted(text)
      else Rejected
  }

  method Parse(header: array<char>) returns (r: Request)
    modifies header
    ensures r == ParseRequest(old(header[..]))
  {
    hide Strtok;
    hide Text;
    var send := 0;
    var scheme, save := StrtokInPlace(header, 0, BLANK);
    if scheme == None {
      return Broken;
    }
    var text := TextOf(header, scheme.value);
    if text != "GETFILE" {
      send := -1;
    }
    var token;
    token, save := StrtokInPlace(header, save, BLANK);
    if token == None {
      return Broken;
    }
    text := TextOf(header, token.value);
    if text != "GET" {
      send := -1;
    }
    var path;
    path, save := StrtokInPlace(header, save, LINE_END);
    if path == None {
      return Broken;
    }
    text := TextOf(header, path.value);
    if text == [] || text[0] != '/' {
      send := -1;
    }
    return if send == -1 then Rejected else Accepted(text);
  }

  /* ---------------------------------------------------------------- what is accepted */

  /** Whatever arrives, a path that reaches the handler starts with a slash and holds no line end. */
  lemma AcceptedIsPath(s: string)
    requires ParseRequest(s).Accepted?
    ensures var path := ParseRequest(s).path;
            path != [] && path[0] == '/' && NUL !in path && '\r' !in path && '\n' !in path
  {
    var scheme := Strtok(s, 0, BLANK);
    var verb := Strtok(scheme.buffer, scheme.next, BLANK);
    TokenClean(verb.buffer, verb.next, LINE_END);
    hide Strtok;
    hide Text;
  }

  /** A request line of three words. */
  function Line(scheme: string, verb: string, path: string, tail: string): (s: string) {
    scheme + " " + (verb + " " + (path + tail))
  }

  /** The words of a request line: the first two without blanks, the third up to the end of the line. */
  ghost predicate ThreeWords(scheme: string, verb: string, path: string, tail: string) {
    && scheme != [] && Clean(scheme, BLANK) && verb != [] && Clean(verb, BLANK)
    && path != [] && Clean(path, LINE_END) && tail != [] && tail[0] in LINE_END
  }

  /** Of all lines of three words just those that ask GETFILE to GET a path are accepted, with that path. */
  lemma AcceptedExactly(scheme: string, verb: string, path: string, tail: string)
    requires ThreeWords(scheme, verb, path, tail)
    ensures ParseRequest(Line(scheme, verb, path, tail))
         == if scheme == "GETFILE" && verb == "GET" && path[0] == '/' then Accepted(path) else Rejected
  {
    LinePieces(scheme, verb, path, tail);
    var s, i, j := Line(scheme, verb, path, tail), |scheme| + 1, |scheme| + |verb| + 2;
    hide ParseRequest;
    hide Line;
    hide Strtok;
    hide Text;
    CutWord(s, 0, scheme, BLANK);
    var s1 := s[i - 1 := NUL];
    SameBehind(s, i - 1, i, j - 1);
    SameBehind(s, i - 1, j, j + |path|);
    CutWord(s1, i, verb, BLANK);
    var s2 := s1[j - 1 := NUL];
    SameBehind(s1, j - 1, j, j + |path|);
    CutWord(s2, j, path, LINE_END);
    ParsesWords(s, i, j, scheme, verb, path);
  }

  lemma ParsesWords(s: string, i: nat, j: nat, scheme: string, verb: string, path: string)
    requires 0 < i < j < j + |path| < |s| && path != []
    requires var s1 := s[i - 1 := NUL];
             var s2 := s1[j - 1 := NUL];
             var s3 := s2[j + |path| := NUL];
             && Strtok(s, 0, BLANK) == Token(Some(0), i, s1) && Text(s1, 0) == scheme
             && Strtok(s1, i, BLANK) == Token(Some(i), j, s2) && Text(s2, i) == verb
             && Strtok(s2, j, LINE_END) == Token(Some(j), j + |path| + 1, s3) && Text(s3, j) == path
    ensures ParseRequest(s) == if scheme == "GETFILE" && verb == "GET" && path[0] == '/' then Accepted(path) else Rejected
  {
  }

  /** A token of `strtok` and the string it is. */
  lemma CutWord(s: string, i: nat, w: string, delimiters: set<char>)
    requires w != [] && i + |w| < |s| && s[i..i + |w|] == w && Clean(w, delimiters)
    requires s[i + |w|] in delimiters && NUL !in delimiters
    ensures Strtok(s, i, delimiters) == Token(Some(i), i + |w| + 1, s[i + |w| := NUL])
    ensures Text(s[i + |w| := NUL], i) == w
  {
    CutToken(s, i, w, delimiters);
    hide Strtok;
    assert s[i + |w| := NUL][i..i + |w|] == w;
    PieceIsText(s[i + |w| := NUL], i, w);
  }

  lemma SameBehind(s: string, k: nat, from: nat, to: nat)
    requires k < from <= to < |s|
    ensures s[k := NUL][from..to] == s[from..to] && s[k := NUL][to] == s[to]
  {
  }

  /** Where the pieces of a line stand. */
  lemma LinePieces(scheme: string, verb: string, path: string, tail: string)
    requires tail != []
    ensures var s, i, j := Line(scheme, verb, path, tail), |scheme| + 1, |scheme| + |verb| + 2;
            && |s| == j + |path| + |tail|
            && s[0..|scheme|] == scheme && s[|scheme|] == ' '
            && s[i..i + |verb|] == verb && s[i + |verb|] == ' '
            && s[j..j + |path|] == path && s[j + |path|] == tail[0]
  {
    var s, rest := Line(scheme, verb, path, tail), verb + " " + (path + tail);
    var i, j := |scheme| + 1, |scheme| + |verb| + 2;
    assert s[i..] == rest && rest[..|verb|] == verb;
    assert s[j..] == path + tail;
    assert s[i..i + |verb|] == s[i..][..|verb|] && s[j..j + |path|] == s[j..][..|path|];
  }

  /** A request as the client prints it is accepted with its path, whatever zeros follow. */
  lemma RequestRoundTrip(path: string, zeros: nat)
    requires ValidPath(path)
    ensures ParseRequest(Filled(RequestText(path), zeros)) == Accepted(path)
  {
    var tail := "\r\n\r\n" + seq(zeros, _ => NUL);
    Reassociate("GETFILE ", "GET ", path, "\r\n\r\n", seq(zeros, _ => NUL), "");
    assert "GETFILE GET " == "GETFILE " + "GET " && "GETFILE" + " " == "GETFILE " && "GET" + " " == "GET ";
    assert Filled(RequestText(path), zeros) == Line("GETFILE", "GET", path, tail);
    assert tail[0] == '\r';
    assert forall c :: c in path ==> c !in LINE_END;
    AcceptedExactly("GETFILE", "GET", path, tail);
    hide ParseRequest;
    hide Line;
  }

  /* ---------------------------------------------------------------- putting the request together */

  predicate IsBlankLine(text: string, k: nat) {
    k + 4 <= |text| && text[k..k + 4] == "\r\n\r\n"
  }

  /** `strstr` finds the blank line. */
  ghost predicate HasBlankLine(text: string) {
    exists k: nat :: IsBlankLine(text, k)
  }

  method FindBlankLine(header: array<char>) returns (found: bool)
    ensures found <==> HasBlankLine(Text(header[..], 0))
  {
    var text := TextOf(header, 0);
    found := false;
    var k := 0;
    while k + 4 <= |text| && !found
      invariant !found ==> forall j: nat :: j < k ==> !IsBlankLine(text, j)
      invariant found ==> HasBlankLine(text)
    {
      found := IsBlankLine(text, k);
      k := k + 1;
    }
  }

  /** A stream that brings exactly one request, in fragments that are not empty. */
  ghost predicate Delivers(fragments: seq<string>, path: string) {
    && Flatten(fragments) == RequestText(path)
    && forall k :: 0 <= k < |fragments| ==> fragments[k] != []
  }

  lemma {:induction false} ConcatPrefix(fragments: seq<string>, k: nat)
    requires k <= |fragments|
    ensures Flatten(fragments[..k]) <= Flatten(fragments)
    ensures k < |fragments| && fragments[|fragments| - 1] != [] ==> |Flatten(fragments[..k])| < |Flatten(fragments)|
    decreases |fragments|
  {
    if k == |fragments| {
      assert fragments[..k] == fragments;
    } else {
      var init := fragments[..|fragments| - 1];
      ConcatPrefix(init, k);
      assert init[..k] == fragments[..k];
    }
  }

  /** The blank line of a request stands at its end only. */
  lemma BlankLineIsLast(path: string, text: string)
    requires ValidPath(path) && text <= RequestText(path)
    ensures HasBlankLine(text) <==> text == RequestText(path)
  {
    var all := RequestText(path);
    var n := 12 + |path|;
    assert all[n..] == "\r\n\r\n" && |all| == n + 4;
    if text == all {
      assert IsBlankLine(text, n);
    } else if HasBlankLine(text) {
      var k: nat :| IsBlankLine(text, k);
      assert text[k..k + 4][0] == '\r' == all[k];
      OneLine(path, k);
      assert false;
    }
  }

  lemma OneLine(path: string, k: nat)
    requires ValidPath(path) && k < 12 + |path|
    ensures RequestText(path)[k] != '\r' && RequestText(path)[k] != NUL
  {
    var head := "GETFILE GET ";
    assert '\r' !in head && NUL !in head;
    var line := head + path;
    assert RequestText(path)[k] == line[k] && (k < 12 ==> line[k] in head) && (k >= 12 ==> line[k] in path);
  }

  lemma RequestClean(path: string)
    requires ValidPath(path)
    ensures NUL !in RequestText(path)
  {
    var tail := "\r\n\r\n";
    forall k | 0 <= k < |RequestText(path)| ensures RequestText(path)[k] != NUL {
      if k < 12 + |path| {
        OneLine(path, k);
      } else {
        assert RequestText(path)[k] == tail[k - 12 - |path|];
      }
    }
  }

  /** The receive loop and the parser: however the stream is cut up, the loop takes every fragment, ends, and the
  handler gets the client's path. */
  method ServeFirst(fragments: seq<string>, ghost path: string) returns (r: Request)
    requires ValidPath(path) && Delivers(fragments, path)
    ensures r == Accepted(path)
  {
    hide Strtok;
    hide Text;
    hide ParseRequest;
    hide HasBlankLine;
    var header := new char[BUFSIZE](_ => NUL);
    var received, i := 0, 0;
    ghost var text := [];
    StreamPrefix(fragments, 0, path);
    Held(text, header[..]);
    var found := FindBlankLine(header);
    while !found
      invariant i <= |fragments| && text == Flatten(fragments[..i]) && received == |text| < MESSAGE_SIZE
      invariant header.Length == BUFSIZE && header[..] == Filled(text, BUFSIZE - received)
      invariant text <= RequestText(path) && (text == RequestText(path) <==> i == |fragments|)
      invariant found <==> HasBlankLine(text)
      decreases |fragments| - i
    {
      BlankLineIsLast(path, text);
      var buffer := fragments[i];
      Append(fragments, i);
      StreamPrefix(fragments, i + 1, path);
      CopyString(header, received, buffer, text);
      text := text + buffer;
      received := received + |buffer|;
      i := i + 1;
      Held(text, header[..]);
      found := FindBlankLine(header);
    }
    BlankLineIsLast(path, text);
    RequestRoundTrip(path, BUFSIZE - received);
    r := Parse(header);
  }

  lemma StreamPrefix(fragments: seq<string>, k: nat, path: string)
    requires ValidPath(path) && Delivers(fragments, path) && k <= |fragments|
    ensures var text := Flatten(fragments[..k]);
            && text <= RequestText(path) && |text| < MESSAGE_SIZE && NUL !in text
            && (text == RequestText(path) <==> k == |fragments|)
  {
    RequestClean(path);
    ConcatPrefix(fragments, k);
    assert fragments[..|fragments|] == fragments;
  }

  lemma Append(fragments: seq<string>, i: nat)
    requires i < |fragments|
    ensures Flatten(fragments[..i + 1]) == Flatten(fragments[..i]) + fragments[i]
  {
    assert fragments[..i + 1][..i] == fragments[..i];
  }

  /** What was received is the string in the buffer. */
  lemma Held(text: string, s: string)
    requires NUL !in text && |text| <= |s| && s == Filled(text, |s| - |text|)
    ensures Text(s, 0) == text
  {
    assert s[0..|text|] == text;
    PieceIsText(s, 0, text);
  }

  /** `strcpy` to the end of what was received, in a buffer that is zero from there on. */
  method CopyString(header: array<char>, at: nat, text: string, ghost before: string)
    requires at == |before| && at + |text| < header.Length && header[..] == Filled(before, header.Length - at)
    modifies header
    ensures header[..] == Filled(before + text, header.Length - at - |text|)
  {
    var k := 0;
    while k < |text|
      invariant k <= |text|
      invariant header[..] == Filled(before + text[..k], header.Length - at - k)
    {
      header[at + k] := text[k];
      k := k + 1;
    }
    header[at + |text|] := NUL;
  }
}
