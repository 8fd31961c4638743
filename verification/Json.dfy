/** JSON values and JSON.stringify without indentation, as in sections 3 to 7 of RFC 8259. */
module Json {
  predicate IsNumberChar(c: char) {
    '0' <= c <= '9' || c == '-' || c == '+' || c == '.' || c == 'e'
  }

  predicate IsNumberText(s: string) {
    && s != [] && ('0' <= s[0] <= '9' || s[0] == '-')
    && forall i | 0 <= i < |s| :: IsNumberChar(s[i])
  }

  /** A number is known by the text it prints as. */
  type NumberText = s: string | IsNumberText(s) witness "0"

  /** An object's members keep their order. */
  datatype Value =
    | Null
    | Bool(truth: bool)
    | Number(text: NumberText)
    | String(chars: string)
    | Array(items: seq<Value>)
    | Object(members: seq<Member>)

  datatype Member = Member(key: string, value: Value)

  const HEX: string := "0123456789abcdef"

  /** The two-character and \u00xx escapes; every other character stands for itself. */
  function Escape(c: char): (text: string)
    ensures text != [] && text[0] != '\"'
  {
    if c == '\"' then "\\\""
    else if c == '\\' then "\\\\"
    else if c as int == 8 then "\\b"
    else if c as int == 9 then "\\t"
    else if c as int == 10 then "\\n"
    else if c as int == 12 then "\\f"
    else if c as int == 13 then "\\r"
    else if c as int < 16 then "\\u000" + [HEX[c as int]]
    else if c as int < 32 then "\\u001" + [HEX[c as int - 16]]
    else [c]
  }

  /** The escaped characters and the closing quote. */
  function Chars(s: string): string {
    if s == [] then "\"" else Escape(s[0]) + Chars(s[1..])
  }

  function Quoted(s: string): string {
    "\"" + Chars(s)
  }

  function Stringify(v: Value): (text: string)
    ensures text != [] && text[0] !in ",]}"
    decreases v
  {
    match v
    case Null => "null"
    case Bool(truth) => if truth then "true" else "false"
    case Number(text) => text
    case String(chars) => Quoted(chars)
    case Array(items) => "[" + (if items == [] then "]" else Stringify(items[0]) + MoreItems(items[1..]))
    case Object(members) => "{" + (if members == [] then "}" else Named(members[0]) + MoreMembers(members[1..]))
  }

  function Named(m: Member): (text: string)
    ensures text != [] && text[0] == '\"'
    decreases m
  {
    Quoted(m.key) + (":" + Stringify(m.value))
  }

  /** The items after the first, and the closing bracket. */
  function MoreItems(items: seq<Value>): (text: string)
    ensures Ends(text) && text != []
    decreases items
  {
    if items == [] then "]" else "," + (Stringify(items[0]) + MoreItems(items[1..]))
  }

  function MoreMembers(members: seq<Member>): (text: string)
    ensures Ends(text) && text != []
    decreases members
  {
    if members == [] then "}" else "," + (Named(members[0]) + MoreMembers(members[1..]))
  }

  lemma LiteralsPrintAsTheyAreWritten()
    ensures Stringify(Null) == "null" && Stringify(Bool(true)) == "true" && Stringify(Bool(false)) == "false"
    ensures Stringify(String("a")) == "\"a\"" && Stringify(Array([])) == "[]" && Stringify(Object([])) == "{}"
  {
    assert Chars("a") == Escape('a') + Chars("");
  }

  /** What may follow a value: the end of the text, a comma or a closing bracket. */
  predicate Ends(x: string) {
    x == [] || x[0] in ",]}"
  }

  // No text of a value is the beginning of another's, up to the character that must follow it

  lemma Cancel(p: string, x: string, y: string)
    requires p + x == p + y
    ensures x == y
  {
    assert (p + x)[|p|..] == x && (p + y)[|p|..] == y;
  }

  function HexValue(c: char): (v: nat)
    ensures v < 16
  {
    if '0' <= c <= '9' then c as int - '0' as int
    else if 'a' <= c <= 'f' then c as int - 'a' as int + 10
    else 0
  }

  /** The character whose escape a text begins with. */
  function FirstChar(text: string): char
    requires text != []
  {
    if text[0] != '\\' || |text| == 1 then text[0]
    else if text[1] == 'b' then 8 as char
    else if text[1] == 't' then 9 as char
    else if text[1] == 'n' then 10 as char
    else if text[1] == 'f' then 12 as char
    else if text[1] == 'r' then 13 as char
    else if text[1] == 'u' && |text| >= 6 then
      (HexValue(text[5]) + if text[4] == '1' then 16 else 0) as char
    else text[1]
  }

  lemma FirstCharIsEscaped(c: char, x: string)
    ensures FirstChar(Escape(c) + x) == c
  {
    var text := Escape(c) + x;
    assert text[0] == Escape(c)[0];
    if |Escape(c)| > 1 {
      assert text[1] == Escape(c)[1];
      if |Escape(c)| > 2 {
        assert text[4] == Escape(c)[4] && text[5] == Escape(c)[5];
      }
    }
  }

  lemma EscapePrefix(c: char, x: string, d: char, y: string)
    requires Escape(c) + x == Escape(d) + y
    ensures c == d && x == y
  {
    FirstCharIsEscaped(c, x);
    FirstCharIsEscaped(d, y);
    Cancel(Escape(c), x, y);
  }

  lemma Shift(p: string, q: string, x: string)
    ensures (p + q) + x == p + (q + x)
  {
  }

  lemma {:induction false} CharsPrefix(a: string, x: string, b: string, y: string)
    requires Chars(a) + x == Chars(b) + y
    ensures a == b && x == y
  {
    if a != [] && b != [] {
      Shift(Escape(a[0]), Chars(a[1..]), x);
      Shift(Escape(b[0]), Chars(b[1..]), y);
      EscapePrefix(a[0], Chars(a[1..]) + x, b[0], Chars(b[1..]) + y);
      CharsPrefix(a[1..], x, b[1..], y);
      assert a == [a[0]] + a[1..] && b == [b[0]] + b[1..];
    } else {
      assert (Chars(a) + x)[0] == Chars(a)[0] && (Chars(b) + y)[0] == Chars(b)[0];
      assert a == b;
      Cancel("\"", x, y);
    }
  }

  lemma QuotedPrefix(a: string, x: string, b: string, y: string)
    requires Quoted(a) + x == Quoted(b) + y
    ensures a == b && x == y
  {
    Shift("\"", Chars(a), x);
    Shift("\"", Chars(b), y);
    Cancel("\"", Chars(a) + x, Chars(b) + y);
    CharsPrefix(a, x, b, y);
  }

  lemma LongerNumber(a: string, x: string, b: NumberText, y: string)
    requires a + x == b + y && |a| < |b|
    ensures x != [] && IsNumberChar(x[0])
  {
    assert (a + x)[|a|] == x[0];
    assert (b + y)[|a|] == b[|a|];
  }

  lemma NumberPrefix(a: NumberText, x: string, b: NumberText, y: string)
    requires a + x == b + y && Ends(x) && Ends(y)
    ensures a == b && x == y
  {
    if |a| < |b| {
      LongerNumber(a, x, b, y);
    } else if |b| < |a| {
      LongerNumber(b, y, a, x);
    } else {
      assert (a + x)[..|a|] == a && (b + y)[..|a|] == b;
      Cancel(a, x, y);
    }
  }

  predicate SameKind(v: Value, w: Value) {
    match v
    case Null => w.Null?
    case Bool(truth) => w == v
    case Number(_) => w.Number?
    case String(_) => w.String?
    case Array(_) => w.Array?
    case Object(_) => w.Object?
  }

  lemma FirstCharacter(v: Value, x: string, w: Value, y: string)
    requires Stringify(v) + x == Stringify(w) + y
    ensures SameKind(v, w)
  {
    assert Stringify(v)[0] == (Stringify(v) + x)[0] == Stringify(w)[0];
  }

  lemma {:induction false} StringifyPrefix(v: Value, x: string, w: Value, y: string)
    requires Stringify(v) + x == Stringify(w) + y && Ends(x) && Ends(y)
    ensures v == w && x == y
    decreases v, 1
  {
    FirstCharacter(v, x, w, y);
    match v
    case Null | Bool(_) => Cancel(Stringify(v), x, y);
    case Number(text) => NumberPrefix(text, x, w.text, y);
    case String(chars) => QuotedPrefix(chars, x, w.chars, y);
    case Array(items) => ArrayPrefix(items, x, w.items, y);
    case Object(members) => ObjectPrefix(members, x, w.members, y);
  }

  lemma {:induction false} ArrayPrefix(a: seq<Value>, x: string, b: seq<Value>, y: string)
    requires Stringify(Array(a)) + x == Stringify(Array(b)) + y
    ensures a == b && x == y
    decreases a, 1
  {
    var p := if a == [] then "]" else Stringify(a[0]) + MoreItems(a[1..]);
    var q := if b == [] then "]" else Stringify(b[0]) + MoreItems(b[1..]);
    Shift("[", p, x);
    Shift("[", q, y);
    Cancel("[", p + x, q + y);
    assert (p + x)[0] == p[0] && (q + y)[0] == q[0];
    if a == [] {
      Cancel("]", x, y);
    } else {
      ItemPrefix(a, x, b, y);
    }
  }

  lemma {:induction false} ItemPrefix(a: seq<Value>, x: string, b: seq<Value>, y: string)
    requires a != [] && b != []
    requires (Stringify(a[0]) + MoreItems(a[1..])) + x == (Stringify(b[0]) + MoreItems(b[1..])) + y
    ensures a == b && x == y
    decreases a, 0
  {
    Shift(Stringify(a[0]), MoreItems(a[1..]), x);
    Shift(Stringify(b[0]), MoreItems(b[1..]), y);
    StringifyPrefix(a[0], MoreItems(a[1..]) + x, b[0], MoreItems(b[1..]) + y);
    MoreItemsPrefix(a[1..], x, b[1..], y);
    assert a == [a[0]] + a[1..] && b == [b[0]] + b[1..];
  }

  lemma {:induction false} MoreItemsPrefix(a: seq<Value>, x: string, b: seq<Value>, y: string)
    requires MoreItems(a) + x == MoreItems(b) + y
    ensures a == b && x == y
    decreases a, 1
  {
    assert (MoreItems(a) + x)[0] == MoreItems(a)[0] && (MoreItems(b) + y)[0] == MoreItems(b)[0];
    if a == [] {
      Cancel("]", x, y);
    } else {
      var p, q := Stringify(a[0]) + MoreItems(a[1..]), Stringify(b[0]) + MoreItems(b[1..]);
      Shift(",", p, x);
      Shift(",", q, y);
      Cancel(",", p + x, q + y);
      ItemPrefix(a, x, b, y);
    }
  }

  lemma {:induction false} ObjectPrefix(a: seq<Member>, x: string, b: seq<Member>, y: string)
    requires Stringify(Object(a)) + x == Stringify(Object(b)) + y
    ensures a == b && x == y
    decreases a, 1
  {
    var p := if a == [] then "}" else Named(a[0]) + MoreMembers(a[1..]);
    var q := if b == [] then "}" else Named(b[0]) + MoreMembers(b[1..]);
    Shift("{", p, x);
    Shift("{", q, y);
    Cancel("{", p + x, q + y);
    assert (p + x)[0] == p[0] && (q + y)[0] == q[0];
    if a == [] {
      Cancel("}", x, y);
    } else {
      MemberPrefix(a, x, b, y);
    }
  }

  lemma {:induction false} MemberPrefix(a: seq<Member>, x: string, b: seq<Member>, y: string)
    requires a != [] && b != []
    requires (Named(a[0]) + MoreMembers(a[1..])) + x == (Named(b[0]) + MoreMembers(b[1..])) + y
    ensures a == b && x == y
    decreases a, 0
  {
    var p, q := MoreMembers(a[1..]) + x, MoreMembers(b[1..]) + y;
    NamedShift(a[0], MoreMembers(a[1..]), x);
    NamedShift(b[0], MoreMembers(b[1..]), y);
    QuotedPrefix(a[0].key, ":" + (Stringify(a[0].value) + p), b[0].key, ":" + (Stringify(b[0].value) + q));
    Cancel(":", Stringify(a[0].value) + p, Stringify(b[0].value) + q);
    StringifyPrefix(a[0].value, p, b[0].value, q);
    MoreMembersPrefix(a[1..], x, b[1..], y);
    assert a[0] == b[0];
    assert a == [a[0]] + a[1..] && b == [b[0]] + b[1..];
  }

  lemma NamedShift(m: Member, more: string, x: string)
    ensures (Named(m) + more) + x == Quoted(m.key) + (":" + (Stringify(m.value) + (more + x)))
  {
    var key, value := Quoted(m.key), Stringify(m.value);
    Shift(Named(m), more, x);
    Shift(key, ":" + value, more + x);
    Shift(":", value, more + x);
  }

  lemma {:induction false} MoreMembersPrefix(a: seq<Member>, x: string, b: seq<Member>, y: string)
    requires MoreMembers(a) + x == MoreMembers(b) + y
    ensures a == b && x == y
    decreases a, 1
  {
    assert (MoreMembers(a) + x)[0] == MoreMembers(a)[0] && (MoreMembers(b) + y)[0] == MoreMembers(b)[0];
    if a == [] {
      Cancel("}", x, y);
    } else {
      var p, q := Named(a[0]) + MoreMembers(a[1..]), Named(b[0]) + MoreMembers(b[1..]);
      Shift(",", p, x);
      Shift(",", q, y);
      Cancel(",", p + x, q + y);
      MemberPrefix(a, x, b, y);
    }
  }

  /** Two values print alike only if they are the same, member order included. */
  lemma StringifyInjective(v: Value, w: Value)
    ensures Stringify(v) == Stringify(w) <==> v == w
  {
    if Stringify(v) == Stringify(w) {
      assert Stringify(v) + "" == Stringify(w) + "";
      StringifyPrefix(v, "", w, "");
    }
  }
}
