/** Zero-terminated strings in a buffer, and `strtok` cutting them in place. */
module CStrings {
  import opened Collections

  const NUL: char := '\0'

  /** The string that starts at index i and ends before the next zero, or with the buffer. */
  function Text(s: string, i: nat): (t: string)
    requires i <= |s|
    ensures NUL !in t
    decreases |s| - i
  {
    if i == |s| || s[i] == NUL then [] else [s[i]] + Text(s, i + 1)
  }

  /** The first index from i on that is not a delimiter. */
  function Skip(s: string, i: nat, delimiters: set<char>): (j: nat)
    requires i <= |s|
    ensures i <= j <= |s|
    decreases |s| - i
  {
    if i == |s| || s[i] == NUL || s[i] !in delimiters then i else Skip(s, i + 1, delimiters)
  }

  /** The first index from i on that is a delimiter or a zero. */
  function Scan(s: string, i: nat, delimiters: set<char>): (j: nat)
    requires i <= |s|
    ensures i <= j <= |s|
    decreases |s| - i
  {
    if i == |s| || s[i] == NUL || s[i] in delimiters then i else Scan(s, i + 1, delimiters)
  }

  /** What a call of `strtok` answers: the start of the token, or None for a null pointer, and where the next call goes
  on; `buffer` is the buffer after the token was cut off. */
  datatype Token = Token(start: Option<nat>, next: nat, buffer: string)

  function Strtok(s: string, from: nat, delimiters: set<char>): (t: Token)
    requires from <= |s|
    ensures |t.buffer| == |s| && from <= t.next <= |s|
    ensures t.start.Some? ==> from <= t.start.value < |s|
  {
    var start := Skip(s, from, delimiters);
    if start == |s| || s[start] == NUL then Token(None, start, s)
    else
      var end := Scan(s, start, delimiters);
      if end == |s| || s[end] == NUL then Token(Some(start), end, s)
      else Token(Some(start), end + 1, s[end := NUL])
  }

  /** `strtok` on a buffer in memory. */
  method StrtokInPlace(buffer: array<char>, from: nat, delimiters: set<char>) returns (start: Option<nat>, next: nat)
    requires from <= buffer.Length
    modifies buffer
    ensures Token(start, next, buffer[..]) == Strtok(old(buffer[..]), from, delimiters)
  {
    var i := from;
    while i < buffer.Length && buffer[i] != NUL && buffer[i] in delimiters
      invariant from <= i <= buffer.Length
      invariant Skip(buffer[..], from, delimiters) == Skip(buffer[..], i, delimiters)
    {
      i := i + 1;
    }
    if i == buffer.Length || buffer[i] == NUL {
      return None, i;
    }
    var j := i;
    while j < buffer.Length && buffer[j] != NUL && buffer[j] !in delimiters
      invariant i <= j <= buffer.Length
      invariant Scan(buffer[..], i, delimiters) == Scan(buffer[..], j, delimiters)
    {
      j := j + 1;
    }
    if j == buffer.Length || buffer[j] == NUL {
      return Some(i), j;
    }
    buffer[j] := NUL;
    return Some(i), j + 1;
  }

  /** The string at an address, as `strcmp` and `strlen` see it. */
  method TextOf(buffer: array<char>, i: nat) returns (t: string)
    requires i <= buffer.Length
    ensures t == Text(buffer[..], i)
  {
    t := [];
    var j := i;
    while j < buffer.Length && buffer[j] != NUL
      invariant i <= j <= buffer.Length
      invariant t + Text(buffer[..], j) == Text(buffer[..], i)
    {
      assert Text(buffer[..], j) == [buffer[j]] + Text(buffer[..], j + 1);
      t := t + [buffer[j]];
      j := j + 1;
    }
  }

  /** n characters that are no delimiters and no zeros stand at index i. */
  ghost predicate Word(s: string, i: nat, n: nat, delimiters: set<char>) {
    i + n <= |s| && forall k :: i <= k < i + n ==> s[k] != NUL && s[k] !in delimiters
  }

  lemma {:induction false} ScanWord(s: string, i: nat, n: nat, delimiters: set<char>)
    requires Word(s, i, n, delimiters) && (i + n == |s| || s[i + n] == NUL || s[i + n] in delimiters)
    ensures Scan(s, i, delimiters) == i + n
    decreases n
  {
    if n > 0 {
      ScanWord(s, i + 1, n - 1, delimiters);
    }
  }

  lemma {:induction false} TextWord(s: string, i: nat, n: nat)
    requires Word(s, i, n, {}) && (i + n == |s| || s[i + n] == NUL)
    ensures Text(s, i) == s[i..i + n]
    decreases n
  {
    if n > 0 {
      TextWord(s, i + 1, n - 1);
    }
  }

  /** A word before a delimiter is the next token. */
  lemma NextToken(s: string, i: nat, n: nat, delimiters: set<char>)
    requires 0 < n && i + n < |s| && Word(s, i, n, delimiters) && s[i + n] in delimiters && NUL !in delimiters
    ensures Strtok(s, i, delimiters) == Token(Some(i), i + n + 1, s[i + n := NUL])
    ensures Text(s[i + n := NUL], i) == s[i..i + n]
  {
    ScanWord(s, i, n, delimiters);
    TextWord(s[i + n := NUL], i, n);
  }

  lemma {:induction false} ScanPast(s: string, i: nat, n: nat, delimiters: set<char>)
    requires Word(s, i, n, delimiters)
    ensures Scan(s, i, delimiters) >= i + n
    decreases n
  {
    if n > 0 {
      ScanPast(s, i + 1, n - 1, delimiters);
    }
  }

  lemma {:induction false} TextPast(s: string, i: nat, n: nat)
    requires Word(s, i, n, {})
    ensures |Text(s, i)| >= n
    decreases n
  {
    if n > 0 {
      TextPast(s, i + 1, n - 1);
    }
  }

  /** A token that begins with a word is cut behind it. */
  lemma TokenFrom(s: string, i: nat, n: nat, delimiters: set<char>)
    requires 0 < n && i + n <= |s| && Word(s, i, n, delimiters)
    ensures var t := Strtok(s, i, delimiters);
            t.start == Some(i) && |t.buffer| == |s| && t.buffer[..i + n] == s[..i + n]
  {
    ScanPast(s, i, n, delimiters);
  }

  /** `strtok` writes at most one zero, behind the place it starts from. */
  lemma StrtokWrites(s: string, from: nat, delimiters: set<char>)
    requires from <= |s|
    ensures forall k :: 0 <= k < from ==> Strtok(s, from, delimiters).buffer[k] == s[k]
  {
  }

  /** A token starts with no delimiter and, once cut, holds none. */
  lemma TokenClean(s: string, from: nat, delimiters: set<char>)
    requires from <= |s| && Strtok(s, from, delimiters).start.Some? && NUL !in delimiters
    ensures var t := Strtok(s, from, delimiters);
            Text(t.buffer, t.start.value) != [] && forall c :: c in Text(t.buffer, t.start.value) ==> c !in delimiters
  {
    var t := Strtok(s, from, delimiters);
    var start := t.start.value;
    SkipStops(s, from, delimiters);
    var end := Scan(s, start, delimiters);
    ScanIsWord(s, start, delimiters);
    TextWord(t.buffer, start, end - start);
    assert t.buffer[start..end] == s[start..end];
  }

  lemma {:induction false} SkipStops(s: string, i: nat, delimiters: set<char>)
    requires i <= |s|
    ensures var j := Skip(s, i, delimiters); j == |s| || s[j] == NUL || s[j] !in delimiters
    decreases |s| - i
  {
    if i < |s| && s[i] in delimiters {
      SkipStops(s, i + 1, delimiters);
    }
  }

  lemma {:induction false} ScanIsWord(s: string, i: nat, delimiters: set<char>)
    requires i <= |s|
    ensures var j := Scan(s, i, delimiters);
            Word(s, i, j - i, delimiters) && (j == |s| || s[j] == NUL || s[j] in delimiters)
    decreases |s| - i
  {
    if i < |s| && s[i] != NUL && s[i] !in delimiters {
      ScanIsWord(s, i + 1, delimiters);
    }
  }
}
