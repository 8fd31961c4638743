/** What the services use of JavaScript's strings: split on one character, join, trim, and digits. */
module Strings {
  /** Never empty: the empty string splits into one empty part. */
  function Split(s: string, sep: char): (parts: seq<string>)
    ensures |parts| >= 1
    ensures forall i | 0 <= i < |parts| :: sep !in parts[i]
  {
    if s == [] then [""]
    else
      var rest := Split(s[1..], sep);
      if s[0] == sep then [""] + rest else [[s[0]] + rest[0]] + rest[1..]
  }

  function Join(parts: seq<string>, sep: char): string {
    if parts == [] then []
    else if |parts| == 1 then parts[0]
    else parts[0] + [sep] + Join(parts[1..], sep)
  }

  lemma {:induction false} SplitPart(part: string, sep: char)
    requires sep !in part
    ensures Split(part, sep) == [part]
  {
    if part != [] {
      SplitPart(part[1..], sep);
      assert [part[0]] + part[1..] == part;
    }
  }

  lemma {:induction false} SplitAfter(part: string, sep: char, tail: string)
    requires sep !in part
    ensures Split(part + [sep] + tail, sep) == [part] + Split(tail, sep)
  {
    var s := part + [sep] + tail;
    if part == [] {
      assert s[1..] == tail;
    } else {
      SplitAfter(part[1..], sep, tail);
      assert s[1..] == part[1..] + [sep] + tail;
      assert part == [part[0]] + part[1..];
    }
  }

  /** Whatever comes before a separator, the part behind the last one is the last part. */
  lemma {:induction false} SplitEnds(s: string, sep: char, part: string)
    requires sep !in part
    ensures
      var parts := Split(s + [sep] + part, sep);
      |parts| >= 2 && parts[|parts| - 1] == part
  {
    var whole := s + [sep] + part;
    if s == [] {
      assert whole[1..] == part;
      SplitPart(part, sep);
    } else {
      assert whole[1..] == s[1..] + [sep] + part;
      SplitEnds(s[1..], sep, part);
    }
  }

  lemma {:induction false} SplitJoin(parts: seq<string>, sep: char)
    requires parts != []
    requires forall i | 0 <= i < |parts| :: sep !in parts[i]
    ensures Split(Join(parts, sep), sep) == parts
  {
    if |parts| == 1 {
      SplitPart(parts[0], sep);
    } else {
      SplitJoin(parts[1..], sep);
      SplitAfter(parts[0], sep, Join(parts[1..], sep));
    }
  }

  predicate IsDigit(c: char) {
    '0' <= c <= '9'
  }

  predicate AllDigits(s: string) {
    forall i | 0 <= i < |s| :: IsDigit(s[i])
  }

  /** The white space and line terminators String.trim removes. */
  predicate IsSpace(c: char) {
    var n := c as int;
    || 9 <= n <= 13 || n == 32 || n == 0xA0 || n == 0x1680 || 0x2000 <= n <= 0x200A
    || n == 0x2028 || n == 0x2029 || n == 0x202F || n == 0x205F || n == 0x3000 || n == 0xFEFF
  }

  function TrimStart(s: string): string {
    if s != [] && IsSpace(s[0]) then TrimStart(s[1..]) else s
  }

  function TrimEnd(s: string): string {
    if s != [] && IsSpace(s[|s| - 1]) then TrimEnd(s[..|s| - 1]) else s
  }

  function Trim(s: string): string {
    TrimEnd(TrimStart(s))
  }

  predicate AllSpace(s: string) {
    forall i | 0 <= i < |s| :: IsSpace(s[i])
  }

  lemma {:induction false} TrimStartDrops(space: string, s: string)
    requires AllSpace(space)
    ensures TrimStart(space + s) == TrimStart(s)
  {
    if space == [] {
      assert space + s == s;
    } else {
      assert (space + s)[0] == space[0] && (space + s)[1..] == space[1..] + s;
      TrimStartDrops(space[1..], s);
    }
  }

  lemma {:induction false} TrimEndDrops(s: string, space: string)
    requires AllSpace(space)
    ensures TrimEnd(s + space) == TrimEnd(s)
  {
    if space == [] {
      assert s + space == s;
    } else {
      var whole := s + space;
      assert whole[|whole| - 1] == space[|space| - 1] && whole[..|whole| - 1] == s + space[..|space| - 1];
      TrimEndDrops(s, space[..|space| - 1]);
    }
  }

  /** Trimming takes exactly the space around a text that begins and ends with something else. */
  lemma TrimmedText(before: string, s: string, after: string)
    requires AllSpace(before) && AllSpace(after) && s != [] && !IsSpace(s[0]) && !IsSpace(s[|s| - 1])
    ensures Trim(before + s + after) == s
  {
    assert before + s + after == before + (s + after);
    TrimStartDrops(before, s + after);
    assert (s + after)[0] == s[0];
    TrimEndDrops(s, after);
  }
}
