/** Canonical JSON: the printer, the tolerant reader, and the decoder that insists on the printer's form. */
module CanonicalJson {
  import opened Common
  import opened Decimal

  /** Everything the reader can produce; objects keep the order of their members. */
  datatype Value =
    | Null
    | Bool(truth: bool)
    | Int(number: int)
    | Str(text: string)
    | Arr(items: Items)
    | Obj(members: Members)

  datatype Items = NoItems | Item(head: Value, tail: Items)

  datatype Members = NoMembers | Member(key: string, member: Value, others: Members)


  // ----- validation -----

  predicate PlainChar(c: char) { ' ' <= c <= '~' && c != '"' && c != '\\' }

  predicate Plain(s: string) { forall i | 0 <= i < |s| :: PlainChar(s[i]) }

  function Keys(ms: Members): set<string> {
    if ms.NoMembers? then {} else {ms.key} + Keys(ms.others)
  }

  predicate Distinct(ms: Members) {
    ms.NoMembers? || (ms.key !in Keys(ms.others) && Distinct(ms.others))
  }

  predicate Valid(v: Value) {
    match v
    case Null => false
    case Bool(_) => true
    case Int(n) => 0 <= n <= MAX_U64
    case Str(s) => Plain(s)
    case Arr(items) => ValidItems(items)
    case Obj(ms) => Distinct(ms) && ValidMembers(ms)
  }

  predicate ValidItems(items: Items) {
    items.NoItems? || (Valid(items.head) && ValidItems(items.tail))
  }

  predicate ValidMembers(ms: Members) {
    ms.NoMembers? || (Plain(ms.key) && Valid(ms.member) && ValidMembers(ms.others))
  }

  // ----- the printer -----

  function Put(v: Value): string
    requires Valid(v)
  {
    match v
    case Bool(b) => if b then "true" else "false"
    case Int(n) => Print(n)
    case Str(s) => "\"" + s + "\""
    case Arr(items) => "[" + PutItems(items) + "]"
    case Obj(ms) => "{" + PutMembers(ms) + "}"
  }

  function PutItems(items: Items): string
    requires ValidItems(items)
  {
    match items
    case NoItems => ""
    case Item(v, NoItems) => Put(v)
    case Item(v, rest) => Put(v) + "," + PutItems(rest)
  }

  function PutMembers(ms: Members): string
    requires ValidMembers(ms)
  {
    match ms
    case NoMembers => ""
    case Member(key, v, NoMembers) => "\"" + key + "\":" + Put(v)
    case Member(key, v, rest) => "\"" + key + "\":" + Put(v) + "," + PutMembers(rest)
  }

  /** One value and one line feed. */
  function Encode(v: Value): Option<string> {
    if Valid(v) then Some(Put(v) + "\n") else None
  }

  // ----- the reader -----

  datatype Parsed<T> = Bad | Got(value: T, rest: string)

  /** What an escape sequence stands for and how many characters it takes after the backslash. */
  datatype Escape = Escape(text: string, used: nat)

  type Escapes = string -> Option<Escape>

  predicate IsSpace(c: char) { c == ' ' || c == '\t' || c == '\n' || c == '\r' }

  function Skip(s: string): (t: string)
    ensures |t| <= |s|
  {
    if s != "" && IsSpace(s[0]) then Skip(s[1..]) else s
  }

  predicate Starts(s: string, c: char) { s != "" && s[0] == c }

  /** A string body, up to and including its closing quote. */
  function ParseString(esc: Escapes, s: string): (p: Parsed<string>)
    ensures p.Got? ==> |p.rest| < |s|
    decreases |s|
  {
    if s == "" || s[0] < ' ' then Bad
    else if s[0] == '"' then Got("", s[1..])
    else if s[0] == '\\' then
      var e := esc(s[1..]);
      if e.None? || e.value.used > |s| - 1 then Bad
      else
        match ParseString(esc, s[1 + e.value.used..])
        case Bad => Bad
        case Got(t, rest) => Got(e.value.text + t, rest)
    else
      match ParseString(esc, s[1..])
      case Bad => Bad
      case Got(t, rest) => Got([s[0]] + t, rest)
  }

  function DigitRun(s: string): (n: nat)
    ensures n <= |s| && AllDigits(s[..n])
    ensures n < |s| ==> !IsDigit(s[n])
  {
    if s == "" || !IsDigit(s[0]) then 0 else DigitRun(s[1..]) + 1
  }

  /** A fraction or an exponent follows, so the number is not an integer. */
  predicate FloatFollows(s: string) {
    (Starts(s, '.') && DigitRun(s[1..]) > 0) ||
    ((Starts(s, 'e') || Starts(s, 'E')) &&
     (DigitRun(s[1..]) > 0 ||
      (|s| >= 2 && (s[1] == '+' || s[1] == '-') && DigitRun(s[2..]) > 0)))
  }

  function ParseNumber(s: string): (p: Parsed<Value>)
    ensures p.Got? ==> |p.rest| < |s|
  {
    var sign := Starts(s, '-');
    var t := if sign then s[1..] else s;
    var n := if Starts(t, '0') then 1 else DigitRun(t);
    if n == 0 || FloatFollows(t[n..]) then Bad
    else
      assert AllDigits(t[..n]);
      Got(Int(if sign then 0 - Read(t[..n]) else Read(t[..n])), t[n..])
  }

  function ParseWord(word: string, v: Value, s: string): (p: Parsed<Value>)
    requires word != ""
    ensures p.Got? ==> |p.rest| < |s|
  {
    if word <= s then Got(v, s[|word|..]) else Bad
  }

  function ParseValue(esc: Escapes, s: string): (p: Parsed<Value>)
    ensures p.Got? ==> |p.rest| < |s|
    decreases |s|, 1
  {
    if s == "" then Bad
    else if s[0] == '"' then
      match ParseString(esc, s[1..])
      case Bad => Bad
      case Got(t, rest) => Got(Str(t), rest)
    else if s[0] == '[' then
      var t := Skip(s[1..]);
      if Starts(t, ']') then Got(Arr(NoItems), t[1..])
      else
        match ParseItems(esc, t)
        case Bad => Bad
        case Got(items, rest) => Got(Arr(items), rest)
    else if s[0] == '{' then
      var t := Skip(s[1..]);
      if Starts(t, '}') then Got(Obj(NoMembers), t[1..])
      else
        match ParseMembers(esc, t)
        case Bad => Bad
        case Got(ms, rest) => if Distinct(ms) then Got(Obj(ms), rest) else Bad
    else if s[0] == 'n' then ParseWord("null", Null, s)
    else if s[0] == 't' then ParseWord("true", Bool(true), s)
    else if s[0] == 'f' then ParseWord("false", Bool(false), s)
    else ParseNumber(s)
  }

  /** One or more items and the closing bracket. */
  function ParseItems(esc: Escapes, s: string): (p: Parsed<Items>)
    ensures p.Got? ==> |p.rest| < |s|
    decreases |s|, 2
  {
    match ParseValue(esc, s)
    case Bad => Bad
    case Got(v, more) =>
      var t := Skip(more);
      if Starts(t, ']') then Got(Item(v, NoItems), t[1..])
      else if Starts(t, ',') then
        match ParseItems(esc, Skip(t[1..]))
        case Bad => Bad
        case Got(items, rest) => Got(Item(v, items), rest)
      else Bad
  }

  datatype Pair = Pair(key: string, member: Value)

  /** A member name, a colon and a value. */
  function ParsePair(esc: Escapes, s: string): (p: Parsed<Pair>)
    ensures p.Got? ==> |p.rest| < |s|
    decreases |s|, 2
  {
    if !Starts(s, '"') then Bad
    else
      match ParseString(esc, s[1..])
      case Bad => Bad
      case Got(key, afterKey) =>
        var colon := Skip(afterKey);
        if !Starts(colon, ':') then Bad
        else
          match ParseValue(esc, Skip(colon[1..]))
          case Bad => Bad
          case Got(v, rest) => Got(Pair(key, v), rest)
  }

  /** One or more members and the closing brace. */
  function ParseMembers(esc: Escapes, s: string): (p: Parsed<Members>)
    ensures p.Got? ==> |p.rest| < |s|
    decreases |s|, 3
  {
    match ParsePair(esc, s)
    case Bad => Bad
    case Got(pair, more) =>
      var t := Skip(more);
      if Starts(t, '}') then Got(Member(pair.key, pair.member, NoMembers), t[1..])
      else if Starts(t, ',') then
        match ParseMembers(esc, Skip(t[1..]))
        case Bad => Bad
        case Got(ms, rest) => Got(Member(pair.key, pair.member, ms), rest)
      else Bad
  }

  function Loads(esc: Escapes, s: string): Option<Value> {
    match ParseValue(esc, Skip(s))
    case Bad => None
    case Got(v, rest) => if Skip(rest) == "" then Some(v) else None
  }

  // ----- the decoder -----

  type Utf8 = Bytes -> Option<string>

  /** Decoding leaves ASCII as it is. */
  ghost predicate KeepsAscii(utf8: Utf8) {
    forall raw: Bytes :: IsAscii(raw) ==> utf8(raw) == Some(raw)
  }

  predicate IsAscii(raw: Bytes) { forall i | 0 <= i < |raw| :: raw[i] < '\U{80}' }

  function Decode(utf8: Utf8, esc: Escapes, raw: Bytes): Option<Value> {
    match utf8(raw)
    case None => None
    case Some(text) =>
      match Loads(esc, text)
      case None => None
      case Some(v) => if Encode(v) == Some(raw) then Some(v) else None
  }

  // ----- reading back what was printed -----

  /** What may follow a number without becoming part of it. */
  predicate Stops(s: string) {
    s == "" || (!IsDigit(s[0]) && s[0] != '.' && s[0] != 'e' && s[0] != 'E')
  }

  lemma {:induction false} StringBack(esc: Escapes, s: string, rest: string)
    requires Plain(s)
    ensures ParseString(esc, s + "\"" + rest) == Got(s, rest)
  {
    var whole := s + "\"" + rest;
    if s == "" {
      assert whole[1..] == rest;
    } else {
      assert whole[1..] == s[1..] + "\"" + rest;
      StringBack(esc, s[1..], rest);
      assert s == [s[0]] + s[1..];
    }
  }

  lemma {:induction false} RunOfDigits(s: string, rest: string)
    requires AllDigits(s) && (rest == "" || !IsDigit(rest[0]))
    ensures DigitRun(s + rest) == |s|
  {
    if s != "" {
      assert (s + rest)[1..] == s[1..] + rest;
      RunOfDigits(s[1..], rest);
    } else {
      assert s + rest == rest;
    }
  }

  lemma NumberBack(n: nat, rest: string)
    requires Stops(rest)
    ensures ParseNumber(Print(n) + rest) == Got(Int(n), rest)
  {
    var s := Print(n);
    PrintIsCanonical(n);
    ReadPrint(n);
    RunOfDigits(s, rest);
    assert (s + rest)[..|s|] == s && (s + rest)[|s|..] == rest;
  }

  /** A printed value starts with neither a space nor a closing bracket. */
  lemma FirstChar(v: Value)
    requires Valid(v)
    ensures |Put(v)| >= 1 && !IsSpace(Put(v)[0]) && Put(v)[0] != ']' && Put(v)[0] != '}'
  {
  }

  lemma ItemsFirstChar(items: Items)
    requires ValidItems(items) && items.Item?
    ensures |PutItems(items)| >= 1 && !IsSpace(PutItems(items)[0]) && PutItems(items)[0] != ']'
  {
    FirstChar(items.head);
  }

  lemma BoolBack(esc: Escapes, b: bool, rest: string)
    ensures ParseValue(esc, Put(Bool(b)) + rest) == Got(Bool(b), rest)
  {
    var word := Put(Bool(b));
    assert (word + rest)[|word|..] == rest;
  }

  lemma IntBack(esc: Escapes, n: nat, rest: string)
    requires Stops(rest) && n <= MAX_U64
    ensures ParseValue(esc, Put(Int(n)) + rest) == Got(Int(n), rest)
  {
    NumberBack(n, rest);
    assert IsDigit((Print(n) + rest)[0]);
  }

  lemma StrBack(esc: Escapes, t: string, rest: string)
    requires Plain(t)
    ensures ParseValue(esc, Put(Str(t)) + rest) == Got(Str(t), rest)
  {
    assert (Put(Str(t)) + rest)[1..] == t + "\"" + rest;
    StringBack(esc, t, rest);
  }

  lemma {:induction false} ValueBack(esc: Escapes, v: Value, rest: string)
    requires Valid(v) && Stops(rest)
    ensures ParseValue(esc, Put(v) + rest) == Got(v, rest)
    decreases v, 1
  {
    match v
    case Bool(b) => BoolBack(esc, b, rest);
    case Int(n) => IntBack(esc, n, rest);
    case Str(t) => StrBack(esc, t, rest);
    case Arr(items) => ArrayBack(esc, items, rest);
    case Obj(ms) => ObjectBack(esc, ms, rest);
  }

  // How the printed text of a container falls apart.

  lemma Bracketed(left: char, text: string, right: char, rest: string)
    ensures ([left] + text + [right] + rest)[1..] == text + [right] + rest
    ensures ([left] + text + [right] + rest)[0] == left
  {
  }

  lemma HeadAndTail(c: char, rest: string)
    ensures ([c] + rest)[0] == c && ([c] + rest)[1..] == rest
  {
  }

  lemma {:induction false} ArrayBack(esc: Escapes, items: Items, rest: string)
    requires ValidItems(items)
    ensures ParseValue(esc, Put(Arr(items)) + rest) == Got(Arr(items), rest)
    decreases items, 1
  {
    if items.Item? {
      Bracketed('[', PutItems(items), ']', rest);
      ItemsFirstChar(items);
      ItemsBack(esc, items, rest);
    } else {
      assert Put(Arr(items)) + rest == "[" + ("]" + rest);
      HeadAndTail('[', "]" + rest);
      HeadAndTail(']', rest);
    }
  }

  lemma {:induction false} ObjectBack(esc: Escapes, ms: Members, rest: string)
    requires ValidMembers(ms) && Distinct(ms)
    ensures ParseValue(esc, Put(Obj(ms)) + rest) == Got(Obj(ms), rest)
    decreases ms, 2
  {
    if ms.Member? {
      Bracketed('{', PutMembers(ms), '}', rest);
      MembersFirstChar(ms);
      MembersBack(esc, ms, rest);
    } else {
      assert Put(Obj(ms)) + rest == "{" + ("}" + rest);
      HeadAndTail('{', "}" + rest);
      HeadAndTail('}', rest);
    }
  }

  lemma {:induction false} ItemsBack(esc: Escapes, items: Items, rest: string)
    requires ValidItems(items) && items.Item?
    ensures ParseItems(esc, PutItems(items) + "]" + rest) == Got(items, rest)
    decreases items, 0
  {
    var v := items.head;
    if items.tail.NoItems? {
      assert PutItems(items) + "]" + rest == Put(v) + ("]" + rest);
      ValueBack(esc, v, "]" + rest);
      HeadAndTail(']', rest);
    } else {
      var more := PutItems(items.tail) + "]" + rest;
      assert PutItems(items) + "]" + rest == Put(v) + ("," + more);
      ValueBack(esc, v, "," + more);
      HeadAndTail(',', more);
      ItemsFirstChar(items.tail);
      ItemsBack(esc, items.tail, rest);
    }
  }

  function PutPair(key: string, v: Value): string
    requires Valid(v)
  {
    "\"" + key + "\":" + Put(v)
  }

  lemma PairText(key: string, text: string)
    ensures ("\"" + key + "\":" + text)[0] == '"' && ("\"" + key + "\":" + text)[1..] == key + "\"" + (":" + text)
  {
  }

  lemma MembersFirstChar(ms: Members)
    requires ValidMembers(ms) && ms.Member?
    ensures |PutMembers(ms)| >= 1 && PutMembers(ms)[0] == '"'
  {
  }

  lemma PairSpelled(key: string, v: Value, rest: string)
    requires Valid(v)
    ensures PutPair(key, v) + rest == "\"" + key + "\":" + (Put(v) + rest)
  {
  }

  lemma {:induction false} PairBack(esc: Escapes, key: string, v: Value, rest: string)
    requires Plain(key) && Valid(v) && Stops(rest)
    ensures ParsePair(esc, PutPair(key, v) + rest) == Got(Pair(key, v), rest)
    decreases v, 2
  {
    var text := Put(v) + rest;
    PairSpelled(key, v, rest);
    PairText(key, text);
    StringBack(esc, key, ":" + text);
    HeadAndTail(':', text);
    FirstChar(v);
    ValueBack(esc, v, rest);
  }

  /** The members after a parsed pair. */
  lemma MembersStep(esc: Escapes, s: string, pair: Pair, more: string)
    requires ParsePair(esc, s) == Got(pair, more) && more != "" && !IsSpace(more[0])
    ensures ParseMembers(esc, s) ==
            if more[0] == '}' then Got(Member(pair.key, pair.member, NoMembers), more[1..])
            else if more[0] != ',' then Bad
            else
              match ParseMembers(esc, Skip(more[1..]))
              case Bad => Bad
              case Got(ms, rest) => Got(Member(pair.key, pair.member, ms), rest)
  {
  }

  lemma {:induction false} MembersBack(esc: Escapes, ms: Members, rest: string)
    requires ValidMembers(ms) && ms.Member?
    ensures ParseMembers(esc, PutMembers(ms) + "}" + rest) == Got(ms, rest)
    decreases ms, 1
  {
    var (text, pair) := (PutMembers(ms) + "}" + rest, PutPair(ms.key, ms.member));
    if ms.others.NoMembers? {
      var tail := "}" + rest;
      assert text == pair + tail;
      PairBack(esc, ms.key, ms.member, tail);
      HeadAndTail('}', rest);
      MembersStep(esc, text, Pair(ms.key, ms.member), tail);
    } else {
      var more := PutMembers(ms.others) + "}" + rest;
      var tail := "," + more;
      assert text == pair + tail;
      PairBack(esc, ms.key, ms.member, tail);
      HeadAndTail(',', more);
      MembersStep(esc, text, Pair(ms.key, ms.member), tail);
      MembersFirstChar(ms.others);
      MembersBack(esc, ms.others, rest);
    }
  }

  lemma LoadsBack(esc: Escapes, v: Value)
    requires Valid(v)
    ensures Loads(esc, Put(v) + "\n") == Some(v)
  {
    FirstChar(v);
    ValueBack(esc, v, "\n");
    assert "\n"[1..] == "";
  }

  lemma {:induction false} PutIsAscii(v: Value)
    requires Valid(v)
    ensures IsAscii(Put(v))
    decreases v, 1
  {
    match v
    case Bool(_) =>
    case Int(_) =>
    case Str(_) =>
    case Arr(items) => PutItemsIsAscii(items);
    case Obj(ms) => PutMembersIsAscii(ms);
  }

  lemma {:induction false} PutItemsIsAscii(items: Items)
    requires ValidItems(items)
    ensures IsAscii(PutItems(items))
    decreases items, 0
  {
    if items.Item? {
      PutIsAscii(items.head);
      PutItemsIsAscii(items.tail);
    }
  }

  lemma {:induction false} PutMembersIsAscii(ms: Members)
    requires ValidMembers(ms)
    ensures IsAscii(PutMembers(ms))
    decreases ms, 0
  {
    if ms.Member? {
      PutIsAscii(ms.member);
      PutMembersIsAscii(ms.others);
    }
  }

  // ----- main results -----

  /**
   A byte string is accepted, as `v`, exactly when `v` is valid and the string is its encoding,
   however escapes and non-ASCII bytes are read.
   */
  lemma DecodeIffEncoding(utf8: Utf8, esc: Escapes, raw: Bytes, v: Value)
    requires KeepsAscii(utf8)
    ensures Decode(utf8, esc, raw) == Some(v) <==> Valid(v) && Encode(v) == Some(raw)
  {
    if Valid(v) && Encode(v) == Some(raw) {
      PutIsAscii(v);
      LoadsBack(esc, v);
    }
  }

  /** Different valid values have different encodings, so a digest of an encoding binds the value. */
  lemma EncodeIsInjective(v: Value, w: Value)
    requires Valid(v) && Valid(w) && Encode(v) == Encode(w)
    ensures v == w
  {
    var esc: Escapes := s => None;
    LoadsBack(esc, v);
    LoadsBack(esc, w);
  }

  /** A printed value is never the beginning of another one followed by a stop. */
  lemma PutIsPrefixFree(v: Value, w: Value, a: string, b: string)
    requires Valid(v) && Valid(w) && Stops(a) && Stops(b) && Put(v) + a == Put(w) + b
    ensures v == w && a == b
  {
    var esc: Escapes := s => None;
    ValueBack(esc, v, a);
    ValueBack(esc, w, b);
  }
}
