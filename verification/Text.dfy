/**
 Byte strings and the text helpers of src/simple-dnsd/utils/platform.cpp.

 A std::string is a sequence of bytes, so `Str` is one too.  Every helper that the
 source writes as a loop is a method here, proved equal to the function that the
 lemmas of the other modules reason about.
 */
module Text {

  type Byte = b: int | 0 <= b < 256
  type Str = seq<Byte>

  const TAB: Byte := 9
  const NEWLINE: Byte := 10
  const SPACE: Byte := 32
  const QUOTE: Byte := 34
  const HASH: Byte := 35
  const MINUS: Byte := 45
  const DOT: Byte := 46
  const BACKSLASH: Byte := 92

  // ---- Characters -------------------------------------------------------

  /** std::isspace in the C locale. */
  predicate IsSpace(c: Byte) {
    9 <= c <= 13 || c == SPACE
  }

  predicate IsDigit(c: Byte) {
    48 <= c <= 57
  }

  /** std::tolower in the C locale. */
  function LowerByte(c: Byte): Byte {
    if 65 <= c <= 90 then c + 32 else c
  }

  function Lowered(s: Str): (r: Str)
    ensures |r| == |s|
    ensures forall i :: 0 <= i < |s| ==> r[i] == LowerByte(s[i])
  {
    seq(|s|, i requires 0 <= i < |s| => LowerByte(s[i]))
  }

  /** toLower edits a copy of its argument in place. */
  method ToLower(value: Str) returns (r: Str)
    ensures r == Lowered(value)
  {
    r := value;
    for i := 0 to |value|
      invariant |r| == |value|
      invariant forall k :: 0 <= k < i ==> r[k] == LowerByte(value[k])
      invariant forall k :: i <= k < |value| ==> r[k] == value[k]
    {
      r := r[i := LowerByte(r[i])];
    }
  }

  lemma LoweredConcat(a: Str, b: Str)
    ensures Lowered(a + b) == Lowered(a) + Lowered(b)
  {
  }

  lemma LoweredTwice(s: Str)
    ensures Lowered(Lowered(s)) == Lowered(s)
  {
  }

  // ---- trim -------------------------------------------------------------

  function TrimLeft(s: Str): (r: Str)
    ensures |r| <= |s|
    ensures r == s[|s| - |r|..]
  {
    if s != [] && IsSpace(s[0]) then TrimLeft(s[1..]) else s
  }

  function TrimRight(s: Str): (r: Str)
    ensures |r| <= |s|
    ensures r == s[..|r|]
  {
    if s != [] && IsSpace(s[|s| - 1]) then TrimRight(s[..|s| - 1]) else s
  }

  function Trimmed(s: Str): Str {
    TrimRight(TrimLeft(s))
  }

  method Trim(value: Str) returns (r: Str)
    ensures r == Trimmed(value)
  {
    r := value;
    while r != [] && IsSpace(r[0])
      invariant TrimLeft(r) == TrimLeft(value)
      decreases |r|
    {
      r := r[1..];
    }
    while r != [] && IsSpace(r[|r| - 1])
      invariant TrimRight(r) == Trimmed(value)
      decreases |r|
    {
      r := r[..|r| - 1];
    }
  }

  lemma TrimmedNoop(s: Str)
    requires s != [] && !IsSpace(s[0]) && !IsSpace(s[|s| - 1])
    ensures Trimmed(s) == s
  {
  }

  // ---- join -------------------------------------------------------------

  function Joined(parts: seq<Str>, sep: Str): Str {
    if parts == [] then []
    else if |parts| == 1 then parts[0]
    else parts[0] + sep + Joined(parts[1..], sep)
  }

  method Join(parts: seq<Str>, sep: Str) returns (out: Str)
    ensures out == Joined(parts, sep)
  {
    out := [];
    for i := 0 to |parts|
      invariant out == Joined(parts[..i], sep)
    {
      JoinedSnoc(parts[..i], parts[i], sep);
      assert parts[..i + 1] == parts[..i] + [parts[i]];
      if i != 0 {
        out := out + sep;
      }
      out := out + parts[i];
    }
    assert parts[..|parts|] == parts;
  }

  lemma {:induction false} JoinedSnoc(parts: seq<Str>, last: Str, sep: Str)
    ensures Joined(parts + [last], sep) == if parts == [] then last else Joined(parts, sep) + sep + last
  {
    if |parts| <= 1 {
    } else {
      assert (parts + [last])[1..] == parts[1..] + [last];
      JoinedSnoc(parts[1..], last, sep);
      assert Joined(parts + [last], sep) == parts[0] + sep + (Joined(parts[1..], sep) + sep + last);
    }
  }

  // ---- splitWs ----------------------------------------------------------

  /** Length of the leading run of bytes that are not white space. */
  function WordLength(s: Str): (n: nat)
    ensures n <= |s|
    ensures forall i :: 0 <= i < n ==> !IsSpace(s[i])
    ensures n < |s| ==> IsSpace(s[n])
  {
    if s == [] || IsSpace(s[0]) then 0 else 1 + WordLength(s[1..])
  }

  /** The white-space separated words of s, as an input stream extracts them. */
  function Words(s: Str): seq<Str>
    decreases |s|
  {
    if s == [] then []
    else if IsSpace(s[0]) then Words(s[1..])
    else [s[..WordLength(s)]] + Words(s[WordLength(s)..])
  }

  lemma WordsPastSpace(s: Str, i: nat)
    requires i < |s| && IsSpace(s[i])
    ensures Words(s[i..]) == Words(s[i + 1..])
  {
    assert s[i..][1..] == s[i + 1..];
  }

  lemma WordsPastWord(s: Str, i: nat, end: nat)
    requires i < end <= |s| && !IsSpace(s[i]) && WordLength(s[i..]) == end - i
    ensures Words(s[i..]) == [s[i..end]] + Words(s[end..])
  {
    hide WordLength;
    assert s[i..][..end - i] == s[i..end] && s[i..][end - i..] == s[end..];
  }

  /** The extraction loop of splitWs, one character at a time. */
  method SplitWs(value: Str) returns (out: seq<Str>)
    ensures out == Words(value)
  {
    hide Words, WordLength, IsSpace;
    out := [];
    var i := 0;
    assert value[0..] == value;
    while i < |value|
      invariant 0 <= i <= |value|
      invariant Words(value) == out + Words(value[i..])
    {
      if IsSpace(value[i]) {
        WordsPastSpace(value, i);
        i := i + 1;
      } else {
        var end := EndOfWord(value, i);
        WordsPastWord(value, i, end);
        out := out + [value[i..end]];
        i := end;
      }
    }
    assert value[i..] == [];
    NoWords();
  }

  lemma NoWords()
    ensures Words([]) == []
  {
  }

  method EndOfWord(value: Str, start: nat) returns (end: nat)
    requires start < |value| && !IsSpace(value[start])
    ensures start < end <= |value|
    ensures WordLength(value[start..]) == end - start
  {
    end := start;
    while end < |value| && !IsSpace(value[end])
      invariant start <= end <= |value|
      invariant forall k :: start <= k < end ==> !IsSpace(value[k])
    {
      end := end + 1;
    }
    WordLengthOf(value[start..end], value[end..]);
    assert value[start..] == value[start..end] + value[end..];
  }

  /** A word: not empty and free of white space. */
  predicate IsWord(s: Str) {
    s != [] && forall i :: 0 <= i < |s| ==> !IsSpace(s[i])
  }

  lemma {:induction false} WordsOfWord(w: Str, rest: Str)
    requires IsWord(w)
    requires rest == [] || IsSpace(rest[0])
    ensures Words(w + rest) == [w] + Words(rest)
  {
    var s := w + rest;
    assert s[0] == w[0];
    WordLengthOf(w, rest);
    assert s[..|w|] == w && s[|w|..] == rest;
  }

  lemma {:induction false} WordLengthOf(w: Str, rest: Str)
    requires forall i :: 0 <= i < |w| ==> !IsSpace(w[i])
    requires rest == [] || IsSpace(rest[0])
    ensures WordLength(w + rest) == |w|
  {
    if w != [] {
      assert (w + rest)[1..] == w[1..] + rest;
      WordLengthOf(w[1..], rest);
    } else {
      assert w + rest == rest;
    }
  }

  /** splitWs undoes join with a single space. */
  lemma {:induction false} WordsOfJoined(parts: seq<Str>)
    requires forall i :: 0 <= i < |parts| ==> IsWord(parts[i])
    ensures Words(Joined(parts, [SPACE])) == parts
  {
    hide WordLength, IsWord;
    if parts == [] {
    } else if |parts| == 1 {
      WordsOfWord(parts[0], []);
      assert parts[0] + [] == parts[0];
    } else {
      var tail := Joined(parts[1..], [SPACE]);
      WordsOfJoined(parts[1..]);
      WordsOfWord(parts[0], [SPACE] + tail);
      assert Joined(parts, [SPACE]) == parts[0] + ([SPACE] + tail);
      assert ([SPACE] + tail)[1..] == tail;
    }
  }

  /** Every word that splitWs returns is one. */
  lemma {:induction false} WordsAreWords(s: Str)
    ensures forall i :: 0 <= i < |Words(s)| ==> IsWord(Words(s)[i])
    decreases |s|
  {
    if s != [] {
      if IsSpace(s[0]) {
        WordsAreWords(s[1..]);
      } else {
        WordsAreWords(s[WordLength(s)..]);
      }
    }
  }
}
