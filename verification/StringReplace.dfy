/** Replacing text in a string whose buffer grows as it is written. */
module StringReplace {

  const FORMAT_RESERVE: nat := 64

  // ---------------------------------------------------------------- what replacing means

  /** From left to right, every occurrence that begins where the one before has ended is replaced. */
  function Replaced(text: string, pattern: string, insert: string): string
    requires pattern != ""
  {
    if text == "" then ""
    else if pattern <= text then insert + Replaced(text[|pattern|..], pattern, insert)
    else [text[0]] + Replaced(text[1..], pattern, insert)
  }

  function Count(text: string, pattern: string): nat
    requires pattern != ""
  {
    if text == "" then 0
    else if pattern <= text then 1 + Count(text[|pattern|..], pattern)
    else Count(text[1..], pattern)
  }

  /** The text is made of `parts` with the old text between them, and no old text begins anywhere else. */
  ghost predicate Splits(text: string, pattern: string, parts: seq<string>)
    requires pattern != ""
    decreases |parts|
  {
    parts != [] &&
    if |parts| == 1 then text == parts[0] && NoMatchBefore(text, pattern, |text|)
    else
      var n := |parts[0]|;
      && n + |pattern| <= |text| && text[..n] == parts[0] && text[n..n + |pattern|] == pattern
      && NoMatchBefore(text, pattern, n) && Splits(text[n + |pattern|..], pattern, parts[1..])
  }

  predicate NoMatchBefore(text: string, pattern: string, n: nat)
    requires n <= |text|
  {
    forall k :: 0 <= k < n ==> !(pattern <= text[k..])
  }

  function Join(parts: seq<string>, separator: string): string
    requires parts != []
  {
    if |parts| == 1 then parts[0] else parts[0] + separator + Join(parts[1..], separator)
  }

  /** A text before which nothing matches is taken over as it is. */
  lemma {:induction false} SkipUnmatched(text: string, pattern: string, insert: string, n: nat)
    requires pattern != "" && n <= |text| && NoMatchBefore(text, pattern, n)
    ensures Replaced(text, pattern, insert) == text[..n] + Replaced(text[n..], pattern, insert)
    ensures Count(text, pattern) == Count(text[n..], pattern)
    decreases n
  {
    if n > 0 {
      assert text[0..] == text;
      forall k | 0 <= k < n - 1 ensures !(pattern <= text[1..][k..]) {
        assert text[1..][k..] == text[k + 1..];
      }
      SkipUnmatched(text[1..], pattern, insert, n - 1);
      assert text[1..][n - 1..] == text[n..];
      assert text[..n] == [text[0]] + text[1..][..n - 1];
    } else {
      assert text[n..] == text;
    }
  }

  /** Main result. The leftmost occurrences that do not overlap separate the parts; these are joined by the new text. */
  lemma {:induction false} ReplacedIsJoin(text: string, pattern: string, insert: string, parts: seq<string>)
    requires pattern != "" && Splits(text, pattern, parts)
    ensures Replaced(text, pattern, insert) == Join(parts, insert) && Count(text, pattern) == |parts| - 1
    decreases |parts|
  {
    if |parts| == 1 {
      SkipUnmatched(text, pattern, insert, |text|);
      assert text[|text|..] == "" && text[..|text|] == text;
    } else {
      var n := |parts[0]|;
      SkipUnmatched(text, pattern, insert, n);
      var rest := text[n..];
      assert rest[..|pattern|] == text[n..n + |pattern|] && rest[|pattern|..] == text[n + |pattern|..];
      ReplacedIsJoin(text[n + |pattern|..], pattern, insert, parts[1..]);
    }
  }

  /** There is no more than one way to split. */
  lemma {:induction false} SplitIsUnique(text: string, pattern: string, a: seq<string>, b: seq<string>)
    requires pattern != "" && Splits(text, pattern, a) && Splits(text, pattern, b)
    ensures a == b
    decreases |a|
  {
    SplitStart(text, pattern, a, b);
    SplitStart(text, pattern, b, a);
    if |a| > 1 {
      SplitIsUnique(text[|a[0]| + |pattern|..], pattern, a[1..], b[1..]);
      assert a == [a[0]] + a[1..] && b == [b[0]] + b[1..];
    }
  }

  /** No split begins with a longer part, or ends where the other one goes on. */
  lemma SplitStart(text: string, pattern: string, a: seq<string>, b: seq<string>)
    requires pattern != "" && Splits(text, pattern, a) && Splits(text, pattern, b)
    ensures |a| > 1 ==> |b| > 1 && |b[0]| <= |a[0]| && b[0] == text[..|b[0]|]
    ensures |a| == 1 ==> a[0] == text
  {
    if |a| > 1 {
      var n := |a[0]|;
      assert text[n..][..|pattern|] == text[n..n + |pattern|];
      assert pattern <= text[n..];
    }
  }

  /** There is one way to split; this is it. */
  lemma {:induction false} SplitExists(text: string, pattern: string) returns (parts: seq<string>)
    requires pattern != ""
    ensures Splits(text, pattern, parts)
    decreases |text|
  {
    if text == "" {
      parts := [""];
    } else if pattern <= text {
      var rest := SplitExists(text[|pattern|..], pattern);
      parts := [""] + rest;
      assert parts[1..] == rest;
    } else {
      var rest := SplitExists(text[1..], pattern);
      parts := [[text[0]] + rest[0]] + rest[1..];
      OneMoreInFront(text, pattern, rest, parts);
    }
  }

  lemma OneMoreInFront(text: string, pattern: string, rest: seq<string>, parts: seq<string>)
    requires pattern != "" && text != "" && !(pattern <= text) && Splits(text[1..], pattern, rest)
    requires parts == [[text[0]] + rest[0]] + rest[1..]
    ensures Splits(text, pattern, parts)
  {
    var n := |rest[0]|;
    forall k | 0 <= k < (if |rest| == 1 then |text| else n + 1) ensures !(pattern <= text[k..]) {
      if k > 0 {
        assert text[1..][k - 1..] == text[k..];
      } else {
        assert text[0..] == text;
      }
    }
    assert parts[1..] == rest[1..];
    if |rest| > 1 {
      assert text[..n + 1] == [text[0]] + text[1..][..n];
      assert text[n + 1..n + 1 + |pattern|] == text[1..][n..n + |pattern|];
      assert text[n + 1 + |pattern|..] == text[1..][n + |pattern|..];
    } else {
      assert text == [text[0]] + text[1..];
    }
  }

  // ---------------------------------------------------------------- the string class

  predicate NoTerminator(s: string) {
    forall i :: 0 <= i < |s| ==> s[i] != '\0'
  }

  lemma NoTerminatorAppend(s: string, t: string)
    requires NoTerminator(s) && NoTerminator(t)
    ensures NoTerminator(s + t)
  {
  }

  function Repeat(ch: char, n: nat): string {
    seq(n, _ => ch)
  }

  /** The first position from `reader` on that holds the character, or -1. */
  method Strchr(s: string, reader: nat, ch: char) returns (found: int)
    requires reader <= |s|
    ensures if found < 0 then ch !in s[reader..] else reader <= found < |s| && s[found] == ch && ch !in s[reader..found]
  {
    var p := reader;
    while p < |s|
      invariant reader <= p <= |s| && ch !in s[reader..p]
    {
      if s[p] == ch {
        return p;
      }
      p := p + 1;
    }
    found := -1;
  }

  class CString {
    var buffer: array<char>
    var size: nat
    var inPtr: nat

    /** There is always room for the terminator behind what is written. */
    ghost predicate Valid()
      reads this, buffer
    {
      buffer.Length == size && inPtr < size && NoTerminator(buffer[..inPtr])
    }

    ghost function Written(): string
      requires Valid()
      reads this, buffer
    {
      buffer[..inPtr]
    }

    constructor (text: string)
      requires NoTerminator(text)
      ensures Valid() && Written() == text && buffer[inPtr] == '\0' && fresh(buffer)
    {
      var b := new char[|text| + 1];
      var i := 0;
      while i < |text|
        invariant i <= |text| && b[..i] == text[..i]
      {
        b[i] := text[i];
        i := i + 1;
      }
      b[i] := '\0';
      buffer, size, inPtr := b, |text| + 1, |text|;
    }

    /** Makes room for that many characters and the terminator; what is written stays. */
    method ReserveSpace(space: nat)
      requires Valid()
      modifies this, buffer
      ensures Valid() && Written() == old(Written()) && (space > 0 ==> inPtr + space < size)
      ensures inPtr == old(inPtr) && (buffer == old(buffer) || fresh(buffer))
    {
      if space == 0 {
        return;
      }
      var newSize := inPtr + space + 1;
      if size >= newSize {
        return;
      }
      newSize := newSize + FORMAT_RESERVE;
      buffer[inPtr] := '\0';
      var newBuffer := new char[newSize];
      ghost var text := buffer[..inPtr];
      var i := 0;
      while buffer[i] != '\0'
        invariant i <= inPtr && newBuffer[..i] == text[..i] && (i < inPtr ==> buffer[i] == text[i])
        invariant buffer[inPtr] == '\0' && buffer[..inPtr] == text
        modifies newBuffer
        decreases inPtr - i
      {
        newBuffer[i] := buffer[i];
        i := i + 1;
      }
      newBuffer[i] := '\0';
      buffer := newBuffer;
      size := newSize;
    }

    method PutChar(ch: char, count: nat)
      requires Valid() && ch != '\0'
      modifies this, buffer
      ensures Valid() && Written() == old(Written()) + Repeat(ch, count)
      ensures buffer == old(buffer) || fresh(buffer)
    {
      ReserveSpace(count);
      ghost var start := buffer[..inPtr];
      var n := count;
      while n > 0
        invariant 0 <= n <= count && Valid() && inPtr + n < size
        invariant Written() == start + Repeat(ch, count - n)
        invariant buffer == old(buffer) || fresh(buffer)
      {
        n := n - 1;
        buffer[inPtr] := ch;
        assert buffer[..inPtr] == start + Repeat(ch, count - n - 1);
        inPtr := inPtr + 1;
      }
    }

    method PutString(s: string)
      requires Valid() && NoTerminator(s)
      modifies this, buffer
      ensures Valid() && Written() == old(Written()) + s && buffer[inPtr] == '\0'
      ensures buffer == old(buffer) || fresh(buffer)
    {
      hide NoTerminator;
      ReserveSpace(|s|);
      ghost var start := buffer[..inPtr];
      var i := 0;
      while i < |s|
        invariant i <= |s| && buffer[..inPtr + i] == start + s[..i]
        modifies buffer
      {
        buffer[inPtr + i] := s[i];
        assert buffer[..inPtr + i] == start + s[..i];
        i := i + 1;
      }
      buffer[inPtr + i] := '\0';
      inPtr := inPtr + |s|;
      assert buffer[..inPtr] == start + s;
      NoTerminatorAppend(start, s);
    }

    /** Takes over the text up to the next candidate, and replaces that or takes over its first character. */
    method ReplaceNext(t: string, start: nat, found: nat, pattern: string, insert: string) returns (reader: nat, hit: bool)
      requires Valid() && NoTerminator(t) && NoTerminator(insert) && pattern != ""
      requires start <= found < |t| && t[found] == pattern[0] && pattern[0] !in t[start..found]
      modifies this, buffer
      ensures Valid() && (buffer == old(buffer) || fresh(buffer))
      ensures start < reader <= |t|
      ensures Written() + Replaced(t[reader..], pattern, insert) == old(Written()) + Replaced(t[start..], pattern, insert)
      ensures Count(t[reader..], pattern) + (if hit then 1 else 0) == Count(t[start..], pattern)
    {
      hide Replaced, Count;
      UpTo(t, start, found, pattern, insert);
      AtCandidate(t, found, pattern, insert);
      ghost var before, front := Written(), t[start..found];
      TakeOver(t, start, found);
      hit := Compare(t, found, pattern);
      if hit {
        PutString(insert);
        reader := found + |pattern|;
        Regroup(before, front, insert, Replaced(t[reader..], pattern, insert));
      } else {
        TakeOver(t, found, found + 1);
        reader := found + 1;
        Regroup(before, front, t[found..found + 1], Replaced(t[reader..], pattern, insert));
      }
    }

    /** Writes a piece of the text character by character. */
    method TakeOver(t: string, start: nat, end: nat)
      requires Valid() && NoTerminator(t) && start <= end <= |t|
      modifies this, buffer
      ensures Valid() && Written() == old(Written()) + t[start..end] && (buffer == old(buffer) || fresh(buffer))
    {
      var reader := start;
      while reader < end
        invariant start <= reader <= end && Valid() && Written() == old(Written()) + t[start..reader]
        invariant buffer == old(buffer) || fresh(buffer)
      {
        assert t[start..reader + 1] == t[start..reader] + Repeat(t[reader], 1);
        PutChar(t[reader], 1);
        reader := reader + 1;
      }
    }

    /** Replaces all that can be replaced from left to right, and counts. */
    method Replace(pattern: string, insert: string) returns (count: nat)
      requires Valid() && buffer[inPtr] == '\0' && NoTerminator(pattern) && NoTerminator(insert)
      modifies this, buffer
      ensures Valid() && buffer[inPtr] == '\0' && (buffer == old(buffer) || fresh(buffer))
      ensures pattern == "" ==> count == 0 && Written() == old(Written())
      ensures pattern != "" ==> Written() == Replaced(old(Written()), pattern, insert) && count == Count(old(Written()), pattern)
    {
      count := 0;
      if pattern == "" {
        return;
      }
      var t := buffer[..inPtr];
      size := FORMAT_RESERVE;
      buffer := new char[size];
      inPtr := 0;
      var reader := 0;
      assert t[0..] == t;
      var found := Strchr(t, reader, pattern[0]);
      while found >= 0
        invariant 0 <= reader <= |t| && Valid() && fresh(buffer)
        invariant found < 0 ==> pattern[0] !in t[reader..]
        invariant found >= 0 ==> reader <= found < |t| && t[found] == pattern[0] && pattern[0] !in t[reader..found]
        invariant Written() + Replaced(t[reader..], pattern, insert) == Replaced(t, pattern, insert)
        invariant count + Count(t[reader..], pattern) == Count(t, pattern)
        decreases |t| - reader
      {
        var hit;
        reader, hit := ReplaceNext(t, reader, found, pattern, insert);
        if hit {
          count := count + 1;
        }
        found := Strchr(t, reader, pattern[0]);
      }
      NoFirstNothing(t, reader, pattern, insert);
      PutString(t[reader..]);
    }
  }

  /** Whether the pattern stands at a position; the text ends with a terminator, which no pattern holds. */
  method Compare(t: string, found: nat, pattern: string) returns (matches: bool)
    requires pattern != "" && found < |t| && t[found] == pattern[0]
    ensures matches == (pattern <= t[found..])
  {
    var i := 1;
    while i < |pattern| && found + i < |t| && t[found + i] == pattern[i]
      invariant 1 <= i <= |pattern| && found + i <= |t| && t[found..found + i] == pattern[..i]
    {
      i := i + 1;
    }
    matches := i == |pattern|;
    if matches {
      assert t[found..][..i] == t[found..found + i];
    }
  }

  lemma NoFirstNoMatch(t: string, start: nat, found: nat, pattern: string)
    requires start <= found <= |t| && pattern != "" && pattern[0] !in t[start..found]
    ensures NoMatchBefore(t[start..], pattern, found - start)
  {
    forall k | 0 <= k < found - start ensures !(pattern <= t[start..][k..]) {
      assert t[start..][k..][0] == t[start..found][k];
    }
  }

  lemma Regroup(a: string, b: string, c: string, d: string)
    ensures ((a + b) + c) + d == a + (b + (c + d))
  {
  }

  lemma UpTo(t: string, start: nat, found: nat, pattern: string, insert: string)
    requires start <= found <= |t| && pattern != "" && pattern[0] !in t[start..found]
    ensures Replaced(t[start..], pattern, insert) == t[start..found] + Replaced(t[found..], pattern, insert)
    ensures Count(t[start..], pattern) == Count(t[found..], pattern)
  {
    NoFirstNoMatch(t, start, found, pattern);
    SkipUnmatched(t[start..], pattern, insert, found - start);
    assert t[start..][found - start..] == t[found..] && t[start..][..found - start] == t[start..found];
  }

  lemma AtCandidate(t: string, found: nat, pattern: string, insert: string)
    requires found < |t| && pattern != ""
    ensures if pattern <= t[found..] then
              && found + |pattern| <= |t|
              && Replaced(t[found..], pattern, insert) == insert + Replaced(t[found + |pattern|..], pattern, insert)
              && Count(t[found..], pattern) == 1 + Count(t[found + |pattern|..], pattern)
            else
              && Replaced(t[found..], pattern, insert) == t[found..found + 1] + Replaced(t[found + 1..], pattern, insert)
              && Count(t[found..], pattern) == Count(t[found + 1..], pattern)
  {
    if pattern <= t[found..] {
      assert t[found..][|pattern|..] == t[found + |pattern|..];
    } else {
      assert t[found..][1..] == t[found + 1..];
      assert t[found..found + 1] == [t[found..][0]];
    }
  }

  lemma NoFirstNothing(t: string, reader: nat, pattern: string, insert: string)
    requires reader <= |t| && pattern != "" && pattern[0] !in t[reader..]
    ensures Replaced(t[reader..], pattern, insert) == t[reader..] && Count(t[reader..], pattern) == 0
  {
    var rest := t[reader..];
    assert t[reader..|t|] == rest;
    NoFirstNoMatch(t, reader, |t|, pattern);
    SkipUnmatched(rest, pattern, insert, |rest|);
    assert rest[|rest|..] == "" && rest[..|rest|] == rest;
  }
}
