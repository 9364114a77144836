/**
 * The canonical JSON printer of tools/phase2/gate-definitions.ts and packages/adapters/src/mcp-proxy.ts,
 * which differ only in the comparator for keys, against a parser for the RFC 8259 grammar without
 * insignificant whitespace.
 */
module CanonicalJson {
  import opened Options
  import opened JsonValues
  import opened Texts

  /** How numbers are written and read back, and how keys are compared. */
  datatype Format = Format(text: real -> string, read: string -> real, before: (string, string) -> bool)

  // ---- Sorting members ----

  /** A stable insertion: equal keys keep their order. */
  function Insert(m: Member, sorted: seq<Member>, before: (string, string) -> bool): seq<Member> {
    if sorted != [] && before(sorted[0].key, m.key) then [sorted[0]] + Insert(m, sorted[1..], before) else [m] + sorted
  }

  function Sorted(members: seq<Member>, before: (string, string) -> bool): seq<Member> {
    if members == [] then [] else Insert(members[0], Sorted(members[1..], before), before)
  }

  lemma {:induction false} InsertKeeps(m: Member, sorted: seq<Member>, before: (string, string) -> bool)
    ensures |Insert(m, sorted, before)| == |sorted| + 1
    ensures forall x :: x in Insert(m, sorted, before) <==> x == m || x in sorted
  {
    if sorted != [] && before(sorted[0].key, m.key) {
      InsertKeeps(m, sorted[1..], before);
      assert sorted == [sorted[0]] + sorted[1..];
    }
  }

  lemma {:induction false} SortedKeeps(members: seq<Member>, before: (string, string) -> bool)
    ensures |Sorted(members, before)| == |members|
    ensures forall x :: x in Sorted(members, before) <==> x in members
  {
    if members != [] {
      SortedKeeps(members[1..], before);
      InsertKeeps(members[0], Sorted(members[1..], before), before);
      assert members == [members[0]] + members[1..];
    }
  }

  function Depth(v: Json): nat {
    match v
    case Arr(items) => 1 + DepthOfItems(items)
    case Obj(members) => 1 + DepthOfMembers(members)
    case _ => 0
  }

  function DepthOfItems(items: seq<Json>): nat {
    if items == [] then 0 else Max(Depth(items[0]), DepthOfItems(items[1..]))
  }

  function DepthOfMembers(members: seq<Member>): nat {
    if members == [] then 0 else Max(Depth(members[0].value), DepthOfMembers(members[1..]))
  }

  function Max(a: nat, b: nat): nat {
    if a < b then b else a
  }

  lemma {:induction false} ItemsAreShallower(items: seq<Json>)
    ensures forall x :: x in items ==> Depth(x) <= DepthOfItems(items)
  {
    if items != [] {
      ItemsAreShallower(items[1..]);
      assert items == [items[0]] + items[1..];
    }
  }

  lemma {:induction false} MembersAreShallower(members: seq<Member>)
    ensures forall m :: m in members ==> Depth(m.value) <= DepthOfMembers(members)
  {
    if members != [] {
      MembersAreShallower(members[1..]);
      assert members == [members[0]] + members[1..];
    }
  }

  predicate ShallowItems(items: seq<Json>, depth: nat) {
    forall i :: 0 <= i < |items| ==> Depth(items[i]) < depth
  }

  predicate ShallowMembers(members: seq<Member>, depth: nat) {
    forall i :: 0 <= i < |members| ==> Depth(members[i].value) < depth
  }

  lemma ChildrenAreShallow(v: Json, before: (string, string) -> bool)
    ensures v.Arr? ==> ShallowItems(v.items, Depth(v))
    ensures v.Obj? ==> ShallowMembers(v.members, Depth(v)) && ShallowMembers(Sorted(v.members, before), Depth(v))
  {
    if v.Arr? { ItemsAreShallower(v.items); }
    if v.Obj? {
      MembersAreShallower(v.members);
      SortedKeeps(v.members, before);
    }
  }

  // ---- Printing ----

  function HexDigit(n: nat): char
    requires n < 16
  {
    "0123456789abcdef"[n]
  }

  /** The escapes `JSON.stringify` writes. */
  function EscapeChar(c: char): string {
    if c == '\"' then "\\\""
    else if c == '\\' then "\\\\"
    else if c as int == 8 then "\\b"
    else if c as int == 12 then "\\f"
    else if c == '\n' then "\\n"
    else if c == '\r' then "\\r"
    else if c == '\t' then "\\t"
    else if c < ' ' then "\\u00" + [HexDigit(c as int / 16), HexDigit(c as int % 16)]
    else [c]
  }

  function Escaped(s: string): string {
    if s == "" then "" else EscapeChar(s[0]) + Escaped(s[1..])
  }

  function Quoted(s: string): string {
    "\"" + Escaped(s) + "\""
  }

  /** `canonicalJson`. */
  function Print(v: Json, f: Format): string
    decreases Depth(v), 1, 0
  {
    ChildrenAreShallow(v, f.before);
    match v
    case Null => "null"
    case Bool(b) => if b then "true" else "false"
    case Num(n) => f.text(n)
    case Str(s) => Quoted(s)
    case Arr(items) => "[" + PrintItems(items, f, Depth(v)) + "]"
    case Obj(members) => "{" + PrintMembers(Sorted(members, f.before), f, Depth(v)) + "}"
  }

  function PrintItems(items: seq<Json>, f: Format, depth: nat): string
    requires ShallowItems(items, depth)
    decreases depth, 0, |items|
  {
    if items == [] then ""
    else if |items| == 1 then Print(items[0], f)
    else Print(items[0], f) + "," + PrintItems(items[1..], f, depth)
  }

  function PrintMembers(members: seq<Member>, f: Format, depth: nat): string
    requires ShallowMembers(members, depth)
    decreases depth, 0, |members|
  {
    if members == [] then ""
    else
      var first := Quoted(members[0].key) + ":" + Print(members[0].value, f);
      if |members| == 1 then first else first + "," + PrintMembers(members[1..], f, depth)
  }

  /** The value with the members of every object in print order. */
  function Canon(v: Json, f: Format): Json
    decreases Depth(v), 1, 0
  {
    ChildrenAreShallow(v, f.before);
    match v
    case Arr(items) => Arr(CanonItems(items, f, Depth(v)))
    case Obj(members) => Obj(CanonMembers(Sorted(members, f.before), f, Depth(v)))
    case _ => v
  }

  function CanonItems(items: seq<Json>, f: Format, depth: nat): (r: seq<Json>)
    requires ShallowItems(items, depth)
    ensures |r| == |items| && forall i :: 0 <= i < |items| ==> r[i] == Canon(items[i], f)
    decreases depth, 0, |items|
  {
    if items == [] then [] else [Canon(items[0], f)] + CanonItems(items[1..], f, depth)
  }

  function CanonMembers(members: seq<Member>, f: Format, depth: nat): (r: seq<Member>)
    requires ShallowMembers(members, depth)
    ensures |r| == |members| && forall i :: 0 <= i < |members| ==> r[i] == Member(members[i].key, Canon(members[i].value, f))
    decreases depth, 0, |members|
  {
    if members == [] then [] else [Member(members[0].key, Canon(members[0].value, f))] + CanonMembers(members[1..], f, depth)
  }

  // ---- Parsing ----

  datatype Parsed<T> = Fail | Got(value: T, rest: string)

  function HexValue(c: char): Option<nat> {
    if '0' <= c <= '9' then Some(c as int - '0' as int)
    else if 'a' <= c <= 'f' then Some(c as int - 'a' as int + 10)
    else if 'A' <= c <= 'F' then Some(c as int - 'A' as int + 10)
    else None
  }

  /** The character of four hexadecimal digits below the surrogates. */
  function HexChar(s: string): Option<char>
    requires |s| == 4
  {
    match (HexValue(s[0]), HexValue(s[1]), HexValue(s[2]), HexValue(s[3]))
    case (Some(a), Some(b), Some(c), Some(d)) =>
      var code := ((a * 16 + b) * 16 + c) * 16 + d;
      if code < 0xD800 then Some(code as char) else None
    case _ => None
  }

  function SimpleEscape(c: char): Option<char> {
    if c == '\"' || c == '\\' || c == '/' then Some(c)
    else if c == 'b' then Some(8 as char)
    else if c == 'f' then Some(12 as char)
    else if c == 'n' then Some('\n')
    else if c == 'r' then Some('\r')
    else if c == 't' then Some('\t')
    else None
  }

  function Prepend(c: char, p: Parsed<string>): Parsed<string> {
    match p case Fail => Fail case Got(s, rest) => Got([c] + s, rest)
  }

  /** Section 7: the characters up to the closing quotation mark. */
  function ReadString(s: string): (p: Parsed<string>)
    ensures p.Got? ==> |p.rest| < |s|
  {
    if s == "" then Fail
    else if s[0] == '\"' then Got("", s[1..])
    else if s[0] == '\\' then
      if |s| < 2 then Fail
      else if s[1] == 'u' then
        if |s| >= 6 && HexChar(s[2..6]).Some? then Prepend(HexChar(s[2..6]).value, ReadString(s[6..])) else Fail
      else if SimpleEscape(s[1]).Some? then Prepend(SimpleEscape(s[1]).value, ReadString(s[2..]))
      else Fail
    else if s[0] < ' ' then Fail
    else Prepend(s[0], ReadString(s[1..]))
  }

  predicate IsNumberChar(c: char) {
    '0' <= c <= '9' || c == '-' || c == '+' || c == '.' || c == 'e' || c == 'E'
  }

  function NumberLength(s: string): (n: nat)
    ensures n <= |s|
  {
    if s == "" || !IsNumberChar(s[0]) then 0 else 1 + NumberLength(s[1..])
  }

  function ParseValue(s: string, f: Format): (p: Parsed<Json>)
    ensures p.Got? ==> |p.rest| < |s|
    decreases |s|, 0
  {
    if "null" <= s then Got(Null, s[4..])
    else if "true" <= s then Got(Bool(true), s[4..])
    else if "false" <= s then Got(Bool(false), s[5..])
    else if s == "" then Fail
    else if s[0] == '\"' then
      (match ReadString(s[1..]) case Fail => Fail case Got(text, rest) => Got(Str(text), rest))
    else if s[0] == '[' then
      if |s| > 1 && s[1] == ']' then Got(Arr([]), s[2..])
      else (match ParseItems(s[1..], f) case Fail => Fail case Got(items, rest) => Got(Arr(items), rest))
    else if s[0] == '{' then
      if |s| > 1 && s[1] == '}' then Got(Obj([]), s[2..])
      else (match ParseMembers(s[1..], f) case Fail => Fail case Got(members, rest) => Got(Obj(members), rest))
    else
      var n := NumberLength(s);
      if n == 0 then Fail else Got(Num(f.read(s[..n])), s[n..])
  }

  /** Section 5: values separated by commas, up to the closing bracket. */
  function ParseItems(s: string, f: Format): (p: Parsed<seq<Json>>)
    ensures p.Got? ==> |p.rest| < |s|
    decreases |s|, 1
  {
    match ParseValue(s, f)
    case Fail => Fail
    case Got(v, rest) =>
      if rest == "" then Fail
      else if rest[0] == ']' then Got([v], rest[1..])
      else if rest[0] == ',' then
        (match ParseItems(rest[1..], f) case Fail => Fail case Got(items, end) => Got([v] + items, end))
      else Fail
  }

  /** Section 4: `"key":value` pairs separated by commas, up to the closing brace. */
  function ParseMembers(s: string, f: Format): (p: Parsed<seq<Member>>)
    ensures p.Got? ==> |p.rest| < |s|
    decreases |s|, 1
  {
    if s == "" || s[0] != '\"' then Fail
    else
      match ReadString(s[1..])
      case Fail => Fail
      case Got(key, colon) =>
        if colon == "" || colon[0] != ':' then Fail
        else
          match ParseValue(colon[1..], f)
          case Fail => Fail
          case Got(v, rest) =>
            if rest == "" then Fail
            else if rest[0] == '}' then Got([Member(key, v)], rest[1..])
            else if rest[0] == ',' then
              (match ParseMembers(rest[1..], f) case Fail => Fail case Got(members, end) => Got([Member(key, v)] + members, end))
            else Fail
  }

  // ---- The parser recovers what was printed ----

  lemma ReadOneChar(c: char, t: string)
    ensures ReadString(EscapeChar(c) + t) == Prepend(c, ReadString(t))
  {
    var e := EscapeChar(c);
    var s := e + t;
    if |e| == 1 {
      assert s[1..] == t;
    } else if |e| == 2 {
      assert s[2..] == t;
    } else {
      assert s[6..] == t;
      assert s[2..6] == e[2..6] == ['0', '0', HexDigit(c as int / 16), HexDigit(c as int % 16)];
    }
  }

  lemma {:induction false} ReadEscaped(s: string, rest: string)
    ensures ReadString(Escaped(s) + "\"" + rest) == Got(s, rest)
  {
    if s == "" {
      assert ("" + "\"" + rest)[1..] == rest;
    } else {
      ReadEscaped(s[1..], rest);
      ReadOneChar(s[0], Escaped(s[1..]) + "\"" + rest);
      assert Escaped(s) + "\"" + rest == EscapeChar(s[0]) + (Escaped(s[1..]) + "\"" + rest);
      assert [s[0]] + s[1..] == s;
    }
  }

  /** The number is written in number characters, and reading undoes the writing. */
  predicate WritesBack(n: real, f: Format) {
    f.text(n) != "" && NumberLength(f.text(n)) == |f.text(n)| && f.read(f.text(n)) == n
  }

  /** Every number that occurs in the value is written back. Nothing is asked of the numbers that do not occur. */
  predicate Readable(v: Json, f: Format) {
    match v
    case Num(n) => WritesBack(n, f)
    case Arr(items) => forall i :: 0 <= i < |items| ==> Readable(items[i], f)
    case Obj(members) => forall i :: 0 <= i < |members| ==> Readable(members[i].value, f)
    case _ => true
  }

  predicate ReadableMembers(members: seq<Member>, f: Format) {
    forall i :: 0 <= i < |members| ==> Readable(members[i].value, f)
  }

  predicate ReadableItems(items: seq<Json>, f: Format) {
    forall i :: 0 <= i < |items| ==> Readable(items[i], f)
  }

  lemma SortedIsReadable(members: seq<Member>, f: Format)
    requires ReadableMembers(members, f)
    ensures ReadableMembers(Sorted(members, f.before), f)
  {
    SortedKeeps(members, f.before);
    hide Sorted, Readable;
    var sorted := Sorted(members, f.before);
    forall i | 0 <= i < |sorted| ensures Readable(sorted[i].value, f) {
      assert sorted[i] in members;
      var j :| 0 <= j < |members| && members[j] == sorted[i];
    }
  }

  /** What follows does not continue a number. */
  predicate Ends(rest: string) {
    rest == "" || !IsNumberChar(rest[0])
  }

  lemma {:induction false} NumberStops(text: string, rest: string)
    requires NumberLength(text) == |text| && Ends(rest)
    ensures NumberLength(text + rest) == |text|
  {
    if text == "" {
      assert text + rest == rest;
    } else {
      NumberStops(text[1..], rest);
      assert (text + rest)[1..] == text[1..] + rest;
    }
  }

  /** The first character of a printed value: no bracket or brace that closes, and not empty. */
  lemma PrintStarts(v: Json, f: Format)
    requires Readable(v, f)
    ensures Print(v, f) != "" && Print(v, f)[0] != ']' && Print(v, f)[0] != '}'
  {
    if v.Num? { assert IsNumberChar(f.text(v.n)[0]); }
  }

  /** Whatever follows, the parser takes exactly the printed value off the front. */
  lemma {:induction false} ParsePrint(v: Json, f: Format, rest: string)
    requires Readable(v, f) && Ends(rest)
    ensures ParseValue(Print(v, f) + rest, f) == Got(Canon(v, f), rest)
    decreases Depth(v), 1, 0
  {
    ChildrenAreShallow(v, f.before);
    var s := Print(v, f) + rest;
    match v {
      case Null => assert s[4..] == rest;
      case Bool(b) => ParseBool(b, f, rest);
      case Num(n) => ParseNumber(n, f, rest);
      case Str(text) => ParseText(text, f, rest);
      case Arr(items) =>
        if items == [] {
          assert s == "[]" + rest && s[2..] == rest && s[0] == '[' && s[1] == ']';
          assert CanonItems(items, f, Depth(v)) == [];
        } else {
          ParsePrintItems(items, f, Depth(v), rest);
          ParseArray(items, f, Depth(v), rest);
        }
      case Obj(members) =>
        var sorted := Sorted(members, f.before);
        SortedIsReadable(members, f);
        if sorted == [] {
          assert s == "{}" + rest && s[2..] == rest && s[0] == '{' && s[1] == '}';
          assert CanonMembers(sorted, f, Depth(v)) == [];
        } else {
          ParsePrintMembers(sorted, f, Depth(v), rest);
          ParseObject(sorted, f, Depth(v), rest);
        }
    }
  }

  lemma ParseNumber(n: real, f: Format, rest: string)
    requires WritesBack(n, f) && Ends(rest)
    ensures ParseValue(f.text(n) + rest, f) == Got(Num(n), rest)
  {
    var s := f.text(n) + rest;
    assert IsNumberChar(f.text(n)[0]) && s[0] == f.text(n)[0];
    NumberStops(f.text(n), rest);
    assert s[..|f.text(n)|] == f.text(n) && s[|f.text(n)|..] == rest;
  }

  lemma ParseText(text: string, f: Format, rest: string)
    ensures ParseValue(Quoted(text) + rest, f) == Got(Str(text), rest)
  {
    var s := Quoted(text) + rest;
    assert s[1..] == Escaped(text) + "\"" + rest;
    ReadEscaped(text, rest);
  }

  lemma ParseBool(b: bool, f: Format, rest: string)
    ensures ParseValue((if b then "true" else "false") + rest, f) == Got(Bool(b), rest)
  {
    var s := (if b then "true" else "false") + rest;
    if b {
      assert s[0] == 't' && s[..4] == "true" && s[4..] == rest;
    } else {
      assert s[0] == 'f' && s[..5] == "false" && s[5..] == rest;
    }
  }

  lemma ArrayStep(body: string, items: seq<Json>, rest: string, f: Format)
    requires body != "" && body[0] != ']' && ParseItems(body, f) == Got(items, rest)
    ensures ParseValue("[" + body, f) == Got(Arr(items), rest)
  {
    assert ("[" + body)[1..] == body;
  }

  lemma ObjectStep(body: string, members: seq<Member>, rest: string, f: Format)
    requires body != "" && body[0] != '}' && ParseMembers(body, f) == Got(members, rest)
    ensures ParseValue("{" + body, f) == Got(Obj(members), rest)
  {
    assert ("{" + body)[1..] == body;
  }

  lemma LastItemStep(s: string, v: Json, rest: string, f: Format)
    requires ParseValue(s, f) == Got(v, "]" + rest)
    ensures ParseItems(s, f) == Got([v], rest)
  {
    assert ("]" + rest)[1..] == rest;
  }

  lemma ItemStep(s: string, v: Json, tail: string, items: seq<Json>, rest: string, f: Format)
    requires ParseValue(s, f) == Got(v, "," + tail) && ParseItems(tail, f) == Got(items, rest)
    ensures ParseItems(s, f) == Got([v] + items, rest)
  {
    assert ("," + tail)[1..] == tail;
  }

  lemma LastMemberStep(key: string, s: string, v: Json, rest: string, f: Format)
    requires ParseValue(s, f) == Got(v, "}" + rest)
    ensures ParseMembers(Quoted(key) + ":" + s, f) == Got([Member(key, v)], rest)
  {
    MemberHead(key, s, f);
    assert ("}" + rest)[1..] == rest;
  }

  lemma MemberStep(key: string, s: string, v: Json, tail: string, members: seq<Member>, rest: string, f: Format)
    requires ParseValue(s, f) == Got(v, "," + tail) && ParseMembers(tail, f) == Got(members, rest)
    ensures ParseMembers(Quoted(key) + ":" + s, f) == Got([Member(key, v)] + members, rest)
  {
    MemberHead(key, s, f);
    assert ("," + tail)[1..] == tail;
  }

  lemma MemberHead(key: string, s: string, f: Format)
    ensures (Quoted(key) + ":" + s)[0] == '\"'
    ensures ReadString((Quoted(key) + ":" + s)[1..]) == Got(key, ":" + s) && (":" + s)[1..] == s
  {
    ReadEscaped(key, ":" + s);
    assert (Quoted(key) + ":" + s)[1..] == Escaped(key) + "\"" + (":" + s);
  }

  lemma ParseArray(items: seq<Json>, f: Format, depth: nat, rest: string)
    requires ReadableItems(items, f) && ShallowItems(items, depth) && items != []
    requires ParseItems(PrintItems(items, f, depth) + "]" + rest, f) == Got(CanonItems(items, f, depth), rest)
    ensures ParseValue("[" + PrintItems(items, f, depth) + "]" + rest, f) == Got(Arr(CanonItems(items, f, depth)), rest)
  {
    var body := PrintItems(items, f, depth) + "]" + rest;
    PrintStarts(items[0], f);
    assert body[0] == Print(items[0], f)[0];
    ArrayStep(body, CanonItems(items, f, depth), rest, f);
    assert "[" + PrintItems(items, f, depth) + "]" + rest == "[" + body;
  }

  lemma ParseObject(members: seq<Member>, f: Format, depth: nat, rest: string)
    requires ShallowMembers(members, depth) && members != []
    requires ParseMembers(PrintMembers(members, f, depth) + "}" + rest, f) == Got(CanonMembers(members, f, depth), rest)
    ensures ParseValue("{" + PrintMembers(members, f, depth) + "}" + rest, f) == Got(Obj(CanonMembers(members, f, depth)), rest)
  {
    hide ParseValue, ParseMembers, Print, Canon, CanonMembers;
    var body := PrintMembers(members, f, depth) + "}" + rest;
    assert body[0] == '\"' by { MembersStart(members, f, depth); }
    ObjectStep(body, CanonMembers(members, f, depth), rest, f);
    assert "{" + PrintMembers(members, f, depth) + "}" + rest == "{" + body;
  }

  lemma MembersStart(members: seq<Member>, f: Format, depth: nat)
    requires ShallowMembers(members, depth) && members != []
    ensures PrintMembers(members, f, depth) != "" && PrintMembers(members, f, depth)[0] == '\"'
  {
  }

  lemma {:induction false} ParsePrintItems(items: seq<Json>, f: Format, depth: nat, rest: string)
    requires ReadableItems(items, f) && ShallowItems(items, depth) && items != []
    ensures ParseItems(PrintItems(items, f, depth) + "]" + rest, f) == Got(CanonItems(items, f, depth), rest)
    decreases depth, 0, |items|
  {
    hide ParseValue, ParseItems, ParseMembers, Print, Canon, Readable;
    var s := PrintItems(items, f, depth) + "]" + rest;
    if |items| == 1 {
      ParsePrint(items[0], f, "]" + rest);
      assert s == Print(items[0], f) + ("]" + rest);
      LastItemStep(s, Canon(items[0], f), rest, f);
      assert CanonItems(items, f, depth) == [Canon(items[0], f)];
    } else {
      var tail := PrintItems(items[1..], f, depth) + "]" + rest;
      ParsePrintItems(items[1..], f, depth, rest);
      ParsePrint(items[0], f, "," + tail);
      assert s == Print(items[0], f) + ("," + tail);
      ItemStep(s, Canon(items[0], f), tail, CanonItems(items[1..], f, depth), rest, f);
    }
  }

  lemma {:induction false} ParsePrintMembers(members: seq<Member>, f: Format, depth: nat, rest: string)
    requires ReadableMembers(members, f) && ShallowMembers(members, depth) && members != []
    ensures ParseMembers(PrintMembers(members, f, depth) + "}" + rest, f) == Got(CanonMembers(members, f, depth), rest)
    decreases depth, 0, |members|
  {
    hide ParseValue, ParseItems, ParseMembers, Print, Canon, Readable, Quoted;
    var m := members[0];
    var text := Print(m.value, f);
    var s := PrintMembers(members, f, depth) + "}" + rest;
    if |members| == 1 {
      ParsePrint(m.value, f, "}" + rest);
      LastMemberStep(m.key, text + ("}" + rest), Canon(m.value, f), rest, f);
      assert s == Quoted(m.key) + ":" + (text + ("}" + rest));
      assert CanonMembers(members, f, depth) == [Member(m.key, Canon(m.value, f))];
    } else {
      var tail := PrintMembers(members[1..], f, depth) + "}" + rest;
      ParsePrintMembers(members[1..], f, depth, rest);
      ParsePrint(m.value, f, "," + tail);
      MemberStep(m.key, text + ("," + tail), Canon(m.value, f), tail, CanonMembers(members[1..], f, depth), rest, f);
      assert s == Quoted(m.key) + ":" + (text + ("," + tail));
    }
  }

  /** Canonical text is uniquely decodable. */
  lemma Decodes(v: Json, f: Format)
    requires Readable(v, f)
    ensures ParseValue(Print(v, f), f) == Got(Canon(v, f), "")
  {
    ParsePrint(v, f, "");
    assert Print(v, f) + "" == Print(v, f);
  }

  // ---- A format for whole numbers ----

  function Magnitude(n: int): nat {
    if n < 0 then -n else n
  }

  function WholeText(n: int): string {
    (if n < 0 then "-" else "") + Digits(Magnitude(n))
  }

  function ReadDigits(s: string): nat {
    if s == "" then 0
    else
      var last := s[|s| - 1];
      ReadDigits(s[..|s| - 1]) * 10 + if '0' <= last <= '9' then last as int - '0' as int else 0
  }

  function ReadWhole(s: string): int {
    if s != "" && s[0] == '-' then -(ReadDigits(s[1..]) as int) else ReadDigits(s)
  }

  lemma {:induction false} ReadDigitsOfDigits(n: nat)
    ensures ReadDigits(Digits(n)) == n
  {
    var digit := ["0123456789"[n % 10]];
    assert digit[..0] == "" && ReadDigits(digit) == n % 10;
    if n >= 10 {
      ReadDigitsOfDigits(n / 10);
      assert Digits(n)[..|Digits(n)| - 1] == Digits(n / 10);
    }
  }

  lemma {:induction false} AllNumberChars(s: string)
    requires forall c :: c in s ==> IsNumberChar(c)
    ensures NumberLength(s) == |s|
  {
    if s != "" { AllNumberChars(s[1..]); }
  }

  /** Whole numbers in decimal, as `JSON.stringify` writes those below 10 to the power 21. */
  function WholeFormat(before: (string, string) -> bool): Format {
    Format((n: real) => WholeText(n.Floor), (s: string) => ReadWhole(s) as real, before)
  }

  /** It writes every whole number back, so every value of whole numbers is readable under it. */
  lemma WholeNumbersWriteBack(n: int, before: (string, string) -> bool)
    ensures WritesBack(n as real, WholeFormat(before))
  {
    var digits := Digits(Magnitude(n));
    ReadDigitsOfDigits(Magnitude(n));
    AllNumberChars(WholeText(n));
    assert (n as real).Floor == n;
    if n < 0 {
      assert WholeText(n)[1..] == digits;
    } else {
      assert WholeText(n) == digits && digits[0] in digits;
    }
  }
}
