/** The benchmark report's JSON reader and writer.  A text is its UTF-8 bytes, each byte the character of that
    code; a string is its characters, of any code. */
module Json {
  import opened Bytes
  import opened Numerals

  datatype JsonValue =
    | Null
    | Bool(b: bool)
    | Int(n: int)
    | Str(s: string)
    | Array(items: seq<JsonValue>)
    | Object(fields: map<string, JsonValue>)

  datatype JsonError =
    | UnexpectedEnd | Unexpected(at: nat) | NumberOutOfRange(at: nat) | TrailingContent(at: nat)
    | Schema(message: string)

  type Parsing<T> = Result<(T, nat), JsonError>

  // ---- the grammar, by position --------------------------------------------

  predicate IsWs(c: char) { c == ' ' || c == '\t' || c == '\n' || c == '\r' }

  function SkipWs(b: string, p: nat): (q: nat)
    requires p <= |b|
    ensures p <= q <= |b|
    decreases |b| - p
  {
    if p < |b| && IsWs(b[p]) then SkipWs(b, p + 1) else p
  }

  /** The text at p starts with s. */
  predicate Reads(b: string, p: nat, s: string) {
    p + |s| <= |b| && forall i | 0 <= i < |s| :: s[i] == b[p + i]
  }

  function ParseLiteral(b: string, p: nat, literal: string, v: JsonValue): Parsing<JsonValue> {
    if Reads(b, p, literal) then Ok((v, p + |literal|)) else Err(Unexpected(p))
  }

  predicate InI128(n: int) { -(U128_SIZE / 2) <= n < U128_SIZE / 2 }

  function Negate(neg: bool, n: nat): int { if neg then 0 - n else n }

  /** Where the run of digits starting at p ends. */
  function DigitsEnd(b: string, p: nat): (q: nat)
    requires p <= |b|
    ensures p <= q <= |b| && AllDigits(b[p..q])
    ensures q < |b| ==> !IsDigit(b[q])
    decreases |b| - p
  {
    if p < |b| && IsDigit(b[p]) then
      var q := DigitsEnd(b, p + 1);
      assert b[p..q] == [b[p]] + b[p + 1..q];
      q
    else p
  }

  /** Integers only: a fraction or exponent is refused where it starts. */
  function ParseNumber(b: string, p: nat): (r: Parsing<JsonValue>)
    requires p < |b|
    ensures r.Ok? ==> p < r.value.1 <= |b|
  {
    var first := if b[p] == '-' then p + 1 else p;
    var end := DigitsEnd(b, first);
    if end == first then Err(Unexpected(p))
    else if end < |b| && (b[end] == '.' || b[end] == 'e' || b[end] == 'E') then Err(Unexpected(end))
    else
      var n := Negate(b[p] == '-', Value(b[first..end]));
      if InI128(n) then Ok((Int(n), end)) else Err(NumberOutOfRange(p))
  }

  function HexDigit(c: char): Option<nat> {
    if IsDigit(c) then Some(DigitOf(c))
    else if 'a' <= c <= 'f' then Some(c as int - 'a' as int + 10)
    else if 'A' <= c <= 'F' then Some(c as int - 'A' as int + 10)
    else None
  }

  function HexValue(s: string): (r: Option<nat>)
    ensures r.Some? && |s| <= 4 ==> r.value < 0x10000
  {
    HexBound(s);
    HexFold(s)
  }

  function HexFold(s: string): Option<nat> {
    if s == [] then Some(0)
    else
      match (HexFold(s[..|s| - 1]), HexDigit(s[|s| - 1]))
      case (Some(high), Some(low)) => Some(16 * high + low)
      case _ => None
  }

  function Pow16(k: nat): nat { if k == 0 then 1 else 16 * Pow16(k - 1) }

  lemma {:induction false} HexBound(s: string)
    ensures HexFold(s).Some? ==> HexFold(s).value < Pow16(|s|)
    ensures |s| <= 4 ==> Pow16(|s|) <= 0x10000
  {
    if s != [] { HexBound(s[..|s| - 1]); }
    if |s| <= 4 { assert Pow16(4) == 0x10000 && Pow16(3) == 0x1000 && Pow16(2) == 0x100 && Pow16(1) == 16; }
  }

  /** `u32::from_str_radix(_, 16)` on four bytes: a leading plus sign is allowed. */
  function FromRadix16(s: string): Option<nat>
    requires |s| == 4
  {
    if s[0] == '+' then HexValue(s[1..]) else HexValue(s)
  }

  /** `char::from_u32`, with the replacement character for a surrogate. */
  function CharOf(code: nat): char
    requires code < 0x10000
  {
    if 0xD800 <= code < 0xE000 then '\U{FFFD}' else code as char
  }

  function SimpleEscape(c: char): Option<char> {
    match c
    case '\"' => Some('\"')
    case '\\' => Some('\\')
    case '/' => Some('/')
    case 'n' => Some('\n')
    case 'r' => Some('\r')
    case 't' => Some('\t')
    case 'b' => Some('\U{8}')
    case 'f' => Some('\U{C}')
    case _ => None
  }

  /** The characters of a string up to its closing quote, onto `acc`. */
  function ParseChars(b: string, p: nat, acc: string): (r: Parsing<string>)
    requires p <= |b|
    ensures r.Ok? ==> p < r.value.1 <= |b|
    decreases |b| - p
  {
    if p == |b| then Err(UnexpectedEnd)
    else if b[p] == '\"' then Ok((acc, p + 1))
    else if b[p] == '\\' then
      if p + 1 == |b| then Err(UnexpectedEnd)
      else if SimpleEscape(b[p + 1]).Some? then ParseChars(b, p + 2, acc + [SimpleEscape(b[p + 1]).value])
      else if b[p + 1] == 'u' then
        if p + 6 > |b| then Err(UnexpectedEnd)
        else
          var code := FromRadix16(b[p + 2..p + 6]);
          if code.None? then Err(Unexpected(p + 2)) else ParseChars(b, p + 6, acc + [CharOf(code.value)])
      else Err(Unexpected(p + 1))
    else if b[p] < ' ' then Err(Unexpected(p))
    else ParseChars(b, p + 1, acc + [b[p]])
  }

  function ParseString(b: string, p: nat): (r: Parsing<string>)
    requires p <= |b|
    ensures r.Ok? ==> p < r.value.1 <= |b|
  {
    if p == |b| then Err(UnexpectedEnd)
    else if b[p] != '\"' then Err(Unexpected(p))
    else ParseChars(b, p + 1, [])
  }

  function ParseValue(b: string, p: nat): (r: Parsing<JsonValue>)
    requires p <= |b|
    ensures r.Ok? ==> p < r.value.1 <= |b|
    decreases |b| - p, 3
  {
    var q := SkipWs(b, p);
    if q == |b| then Err(UnexpectedEnd)
    else if b[q] == '{' then ParseObject(b, q)
    else if b[q] == '[' then ParseArray(b, q)
    else if b[q] == '\"' then
      var (s, end) :- ParseString(b, q);
      Ok((Str(s), end))
    else if b[q] == 't' then ParseLiteral(b, q, "true", Bool(true))
    else if b[q] == 'f' then ParseLiteral(b, q, "false", Bool(false))
    else if b[q] == 'n' then ParseLiteral(b, q, "null", Null)
    else if b[q] == '-' || IsDigit(b[q]) then ParseNumber(b, q)
    else Err(Unexpected(q))
  }

  function ParseArray(b: string, p: nat): (r: Parsing<JsonValue>)
    requires p < |b|
    ensures r.Ok? ==> p < r.value.1 <= |b|
    decreases |b| - p, 2
  {
    var q := SkipWs(b, p + 1);
    if q == |b| then Err(UnexpectedEnd)
    else if b[q] == ']' then Ok((Array([]), q + 1))
    else ParseItems(b, q, [])
  }

  function ParseItems(b: string, p: nat, acc: seq<JsonValue>): (r: Parsing<JsonValue>)
    requires p <= |b|
    ensures r.Ok? ==> p < r.value.1 <= |b|
    decreases |b| - p, 4
  {
    var (v, end) :- ParseValue(b, p);
    var q := SkipWs(b, end);
    if q == |b| then Err(UnexpectedEnd)
    else if b[q] == ',' then ParseItems(b, q + 1, acc + [v])
    else if b[q] == ']' then Ok((Array(acc + [v]), q + 1))
    else Err(Unexpected(q))
  }

  function ParseObject(b: string, p: nat): (r: Parsing<JsonValue>)
    requires p < |b|
    ensures r.Ok? ==> p < r.value.1 <= |b|
    decreases |b| - p, 2
  {
    var q := SkipWs(b, p + 1);
    if q == |b| then Err(UnexpectedEnd)
    else if b[q] == '}' then Ok((Object(map[]), q + 1))
    else ParseFields(b, q, map[])
  }

  /** One key, colon and value. */
  function ParseMember(b: string, p: nat): (r: Parsing<(string, JsonValue)>)
    requires p <= |b|
    ensures r.Ok? ==> p < r.value.1 <= |b|
    decreases |b| - p, 4
  {
    var start := SkipWs(b, p);
    if start == |b| then Err(UnexpectedEnd)
    else if b[start] != '\"' then Err(Unexpected(start))
    else
      var (key, end) :- ParseString(b, start);
      var colon := SkipWs(b, end);
      if colon == |b| then Err(UnexpectedEnd)
      else if b[colon] != ':' then Err(Unexpected(colon))
      else
        var (v, end') :- ParseValue(b, colon + 1);
        Ok(((key, v), end'))
  }

  function ParseFields(b: string, p: nat, acc: map<string, JsonValue>): (r: Parsing<JsonValue>)
    requires p <= |b|
    ensures r.Ok? ==> p < r.value.1 <= |b|
    decreases |b| - p, 5
  {
    var ((key, v), end) :- ParseMember(b, p);
    var q := SkipWs(b, end);
    if q == |b| then Err(UnexpectedEnd)
    else if b[q] == ',' then ParseFields(b, q + 1, acc[key := v])
    else if b[q] == '}' then Ok((Object(acc[key := v]), q + 1))
    else Err(Unexpected(q))
  }

  /** `parse`: one value and nothing but white space around it. */
  function Parse(b: string): Result<JsonValue, JsonError> {
    var (v, end) :- ParseValue(b, SkipWs(b, 0));
    var q := SkipWs(b, end);
    if q == |b| then Ok(v) else Err(TrailingContent(q))
  }

  // ---- the mutable parser --------------------------------------------------

  /** `Parser`: a cursor over the text.  Every method ends where its function does, with its errors; the
      mutual recursion terminates on every input. */
  class Parser {
    const bytes: string
    var pos: nat

    ghost predicate Valid() reads this { pos <= |bytes| }

    ghost predicate Agrees<T>(r: Result<T, JsonError>, spec: Parsing<T>)
      reads this
    {
      match spec
      case Ok(pair) => r == Ok(pair.0) && pos == pair.1
      case Err(e) => r == Err(e)
    }

    constructor (text: string)
      ensures Valid() && bytes == text && pos == 0
    {
      bytes, pos := text, 0;
    }

    method SkipSpaces()
      requires Valid()
      modifies this
      ensures Valid() && pos == SkipWs(bytes, old(pos))
    {
      while pos < |bytes| && IsWs(bytes[pos])
        invariant Valid() && SkipWs(bytes, pos) == SkipWs(bytes, old(pos))
        decreases |bytes| - pos
      {
        pos := pos + 1;
      }
    }

    method Literal(text: string, v: JsonValue) returns (r: Result<JsonValue, JsonError>)
      requires Valid()
      modifies this
      ensures Valid() && Agrees(r, ParseLiteral(bytes, old(pos), text, v))
    {
      var end := pos + |text|;
      if Reads(bytes, pos, text) {
        pos := end;
        return Ok(v);
      }
      return Err(Unexpected(pos));
    }

    method Number() returns (r: Result<JsonValue, JsonError>)
      requires Valid() && pos < |bytes|
      modifies this
      ensures Valid() && Agrees(r, ParseNumber(bytes, old(pos)))
    {
      var start := pos;
      if bytes[pos] == '-' { pos := pos + 1; }
      var first := pos;
      while pos < |bytes| && IsDigit(bytes[pos])
        invariant first <= pos <= |bytes| && DigitsEnd(bytes, pos) == DigitsEnd(bytes, first)
        decreases |bytes| - pos
      {
        pos := pos + 1;
      }
      if pos == first { return Err(Unexpected(start)); }
      if pos < |bytes| && (bytes[pos] == '.' || bytes[pos] == 'e' || bytes[pos] == 'E') { return Err(Unexpected(pos)); }
      var n := Negate(bytes[start] == '-', Value(bytes[first..pos]));
      if !InI128(n) { return Err(NumberOutOfRange(start)); }
      return Ok(Int(n));
    }

    method QuotedString() returns (r: Result<string, JsonError>)
      requires Valid()
      modifies this
      ensures Valid() && Agrees(r, ParseString(bytes, old(pos)))
    {
      if pos == |bytes| { return Err(UnexpectedEnd); }
      if bytes[pos] != '\"' { return Err(Unexpected(pos)); }
      pos := pos + 1;
      var s: string := [];
      while pos < |bytes|
        invariant Valid() && ParseChars(bytes, pos, s) == ParseString(bytes, old(pos))
        decreases |bytes| - pos
      {
        var c := bytes[pos];
        pos := pos + 1;
        if c == '\"' { return Ok(s); }
        if c == '\\' {
          if pos == |bytes| { return Err(UnexpectedEnd); }
          var esc := bytes[pos];
          pos := pos + 1;
          if SimpleEscape(esc).Some? {
            s := s + [SimpleEscape(esc).value];
          } else if esc == 'u' {
            if pos + 4 > |bytes| { return Err(UnexpectedEnd); }
            var code := FromRadix16(bytes[pos..pos + 4]);
            if code.None? { return Err(Unexpected(pos)); }
            pos := pos + 4;
            s := s + [CharOf(code.value)];
          } else {
            return Err(Unexpected(pos - 1));
          }
        } else if c < ' ' {
          return Err(Unexpected(pos - 1));
        } else {
          s := s + [c];
        }
      }
      return Err(UnexpectedEnd);
    }

    method AnyValue() returns (r: Result<JsonValue, JsonError>)
      requires Valid()
      modifies this
      ensures Valid() && Agrees(r, ParseValue(bytes, old(pos)))
      decreases |bytes| - pos, 3
    {
      SkipSpaces();
      if pos == |bytes| { return Err(UnexpectedEnd); }
      var c := bytes[pos];
      if c == '{' {
        r := ObjectValue();
      } else if c == '[' {
        r := ArrayValue();
      } else if c == '\"' {
        var s :- QuotedString();
        return Ok(Str(s));
      } else if c == 't' {
        r := Literal("true", Bool(true));
      } else if c == 'f' {
        r := Literal("false", Bool(false));
      } else if c == 'n' {
        r := Literal("null", Null);
      } else if c == '-' || IsDigit(c) {
        r := Number();
      } else {
        return Err(Unexpected(pos));
      }
    }

    method ArrayValue() returns (r: Result<JsonValue, JsonError>)
      requires Valid() && pos < |bytes|
      modifies this
      ensures Valid() && Agrees(r, ParseArray(bytes, old(pos)))
      decreases |bytes| - pos, 2
    {
      pos := pos + 1;
      SkipSpaces();
      if pos == |bytes| { return Err(UnexpectedEnd); }
      if bytes[pos] == ']' {
        pos := pos + 1;
        return Ok(Array([]));
      }
      r := Items();
    }

    /** The loop of `parse_array`. */
    method Items() returns (r: Result<JsonValue, JsonError>)
      requires Valid()
      modifies this
      ensures Valid() && Agrees(r, ParseItems(bytes, old(pos), []))
      decreases |bytes| - pos, 5
    {
      ghost var all := ParseItems(bytes, pos, []);
      var items: seq<JsonValue> := [];
      while true
        invariant old(pos) <= pos <= |bytes| && ParseItems(bytes, pos, items) == all
        decreases |bytes| - pos
      {
        var more;
        more, r, items := Item(items);
        if !more { return; }
      }
    }

    /** One item, and the comma or bracket after it. */
    method Item(items: seq<JsonValue>) returns (more: bool, r: Result<JsonValue, JsonError>, next: seq<JsonValue>)
      requires Valid()
      modifies this
      ensures Valid()
      ensures more ==> old(pos) < pos && ParseItems(bytes, pos, next) == ParseItems(bytes, old(pos), items)
      ensures !more ==> Agrees(r, ParseItems(bytes, old(pos), items))
      decreases |bytes| - pos, 4
    {
      next := items;
      var one := AnyValue();
      if one.Err? { return false, Err(one.error), items; }
      next := items + [one.value];
      SkipSpaces();
      if pos == |bytes| { return false, Err(UnexpectedEnd), next; }
      if bytes[pos] == ',' {
        pos := pos + 1;
        return true, Err(UnexpectedEnd), next;
      }
      r := Close(']', Array(next));
      more := false;
    }

    /** The closing bracket of a finished list. */
    method Close(bracket: char, v: JsonValue) returns (r: Result<JsonValue, JsonError>)
      requires Valid() && pos < |bytes|
      modifies this
      ensures Valid()
      ensures Agrees(r, if bytes[old(pos)] == bracket then Ok((v, old(pos) + 1)) else Err(Unexpected(old(pos))))
    {
      if bytes[pos] != bracket { return Err(Unexpected(pos)); }
      pos := pos + 1;
      return Ok(v);
    }

    method Member() returns (r: Result<(string, JsonValue), JsonError>)
      requires Valid()
      modifies this
      ensures Valid() && Agrees(r, ParseMember(bytes, old(pos)))
      decreases |bytes| - pos, 4
    {
      SkipSpaces();
      if pos == |bytes| { return Err(UnexpectedEnd); }
      if bytes[pos] != '\"' { return Err(Unexpected(pos)); }
      var key :- QuotedString();
      SkipSpaces();
      if pos == |bytes| { return Err(UnexpectedEnd); }
      if bytes[pos] != ':' { return Err(Unexpected(pos)); }
      pos := pos + 1;
      var v :- AnyValue();
      return Ok((key, v));
    }

    method ObjectValue() returns (r: Result<JsonValue, JsonError>)
      requires Valid() && pos < |bytes|
      modifies this
      ensures Valid() && Agrees(r, ParseObject(bytes, old(pos)))
      decreases |bytes| - pos, 2
    {
      pos := pos + 1;
      SkipSpaces();
      if pos == |bytes| { return Err(UnexpectedEnd); }
      if bytes[pos] == '}' {
        pos := pos + 1;
        return Ok(Object(map[]));
      }
      r := Fields();
    }

    /** The loop of `parse_object`. */
    method Fields() returns (r: Result<JsonValue, JsonError>)
      requires Valid()
      modifies this
      ensures Valid() && Agrees(r, ParseFields(bytes, old(pos), map[]))
      decreases |bytes| - pos, 6
    {
      ghost var all := ParseFields(bytes, pos, map[]);
      var fields: map<string, JsonValue> := map[];
      while true
        invariant old(pos) <= pos <= |bytes| && ParseFields(bytes, pos, fields) == all
        decreases |bytes| - pos
      {
        var more;
        more, r, fields := OneField(fields);
        if !more { return; }
      }
    }

    /** One field, and the comma or brace after it. */
    method OneField(fields: map<string, JsonValue>)
      returns (more: bool, r: Result<JsonValue, JsonError>, next: map<string, JsonValue>)
      requires Valid()
      modifies this
      ensures Valid()
      ensures more ==> old(pos) < pos && ParseFields(bytes, pos, next) == ParseFields(bytes, old(pos), fields)
      ensures !more ==> Agrees(r, ParseFields(bytes, old(pos), fields))
      decreases |bytes| - pos, 5
    {
      next := fields;
      var member := Member();
      if member.Err? { return false, Err(member.error), fields; }
      next := fields[member.value.0 := member.value.1];
      SkipSpaces();
      if pos == |bytes| { return false, Err(UnexpectedEnd), next; }
      if bytes[pos] == ',' {
        pos := pos + 1;
        return true, Err(UnexpectedEnd), next;
      }
      r := Close('}', Object(next));
      more := false;
    }
  }

  method ParseText(text: string) returns (r: Result<JsonValue, JsonError>)
    ensures r == Parse(text)
  {
    var p := new Parser(text);
    p.SkipSpaces();
    var v :- p.AnyValue();
    p.SkipSpaces();
    if p.pos != |text| { return Err(TrailingContent(p.pos)); }
    return Ok(v);
  }

  // ---- printing ------------------------------------------------------------

  /** A document as the writer builds it: object fields in the order they are added. */
  datatype Doc =
    | DNull | DBool(b: bool) | DInt(n: int) | DStr(s: string) | DArray(items: seq<Doc>) | DObject(fields: seq<Field>)
  datatype Field = Field(key: string, value: Doc)

  function HexChar(d: nat): char
    requires d < 16
  {
    if d < 10 then DigitChar(d) else 'a' + (d - 10) as char
  }

  function ByteChar(n: nat): char
    requires n < 256
  {
    n as char
  }

  /** The low six bits of n / 64^k, in a continuation byte. */
  function Tail(n: nat, unit: nat): char
    requires unit > 0
  {
    ByteChar(0x80 + n / unit % 64)
  }

  /** The UTF-8 bytes of a character: what `String::push` appends. */
  function Utf8(c: char): string {
    var n := c as int;
    if n < 0x80 then [c]
    else if n < 0x800 then [ByteChar(0xC0 + n / 64), Tail(n, 1)]
    else if n < 0x10000 then [ByteChar(0xE0 + n / 4096), Tail(n, 64), Tail(n, 1)]
    else [ByteChar(0xF0 + n / 262144), Tail(n, 4096), Tail(n, 64), Tail(n, 1)]
  }

  /** The UTF-8 bytes of the first n characters, and of all. */
  function Utf8To(s: string, n: nat): string
    requires n <= |s|
  {
    if n == 0 then [] else Utf8To(s, n - 1) + Utf8(s[n - 1])
  }

  function Utf8Text(s: string): string { Utf8To(s, |s|) }

  /** One character as `write_json_string` writes it. */
  function Escape(c: char): string {
    match c
    case '\"' => "\\\""
    case '\\' => "\\\\"
    case '\n' => "\\n"
    case '\r' => "\\r"
    case '\t' => "\\t"
    case _ => if c < ' ' then "\\u00" + [HexChar(c as int / 16), HexChar(c as int % 16)] else Utf8(c)
  }

  function EscapeTo(s: string, n: nat): string
    requires n <= |s|
  {
    if n == 0 then [] else EscapeTo(s, n - 1) + Escape(s[n - 1])
  }

  function EscapeAll(s: string): string { EscapeTo(s, |s|) }

  function Quoted(s: string): string { "\"" + (EscapeAll(s) + "\"") }

  function PrintInt(n: int): string { if n < 0 then "-" + Digits(-n) else Digits(n) }

  /** Parts separated by commas, then the closing bracket. */
  function Join(parts: seq<string>, close: string): string {
    if parts == [] then close else parts[0] + Rest(parts[1..], close)
  }

  /** The parts after the first, each after its comma. */
  function Rest(parts: seq<string>, close: string): string {
    if parts == [] then close else "," + (parts[0] + Rest(parts[1..], close))
  }

  function Print(d: Doc): string
    decreases d
  {
    match d
    case DNull => "null"
    case DBool(b) => if b then "true" else "false"
    case DInt(n) => PrintInt(n)
    case DStr(s) => Quoted(s)
    case DArray(items) => "[" + Join(Prints(items), "]")
    case DObject(fields) => "{" + Join(PrintFields(fields), "}")
  }

  function Prints(items: seq<Doc>): (parts: seq<string>)
    ensures |parts| == |items| && forall i | 0 <= i < |items| :: parts[i] == Print(items[i])
    decreases items
  {
    if items == [] then [] else [Print(items[0])] + Prints(items[1..])
  }

  function PrintField(f: Field): string
    decreases f
  {
    Quoted(f.key) + (":" + Print(f.value))
  }

  function PrintFields(fields: seq<Field>): (parts: seq<string>)
    ensures |parts| == |fields| && forall i | 0 <= i < |fields| :: parts[i] == PrintField(fields[i])
    decreases fields
  {
    if fields == [] then [] else [PrintField(fields[0])] + PrintFields(fields[1..])
  }

  predicate AsciiText(s: string) { forall i | 0 <= i < |s| :: s[i] < '\U{80}' }

  predicate AsciiTo(s: string, n: nat)
    requires n <= |s|
  {
    forall i | 0 <= i < n :: s[i] < '\U{80}'
  }

  lemma {:induction false} Utf8Size(s: string, n: nat)
    requires n <= |s|
    ensures |Utf8To(s, n)| >= n && (|Utf8To(s, n)| == n <==> AsciiTo(s, n))
  {
    if n > 0 { Utf8Size(s, n - 1); }
  }

  lemma {:induction false} Utf8Same(s: string, n: nat)
    requires n <= |s| && AsciiTo(s, n)
    ensures Utf8To(s, n) == s[..n]
  {
    if n > 0 {
      Utf8Same(s, n - 1);
      assert s[..n] == s[..n - 1] + [s[n - 1]];
    }
  }

  /** Reading each UTF-8 byte as a character gives the text back exactly for ASCII. */
  lemma {:induction false} Utf8TextSame(s: string)
    ensures Utf8Text(s) == s <==> AsciiText(s)
  {
    Utf8Size(s, |s|);
    if AsciiText(s) {
      Utf8Same(s, |s|);
      assert s[..|s|] == s;
    }
  }

  /** Every number fits the parser's integers. */
  predicate Printable(d: Doc)
    decreases d
  {
    match d
    case DInt(n) => InI128(n)
    case DArray(items) => forall i | 0 <= i < |items| :: Printable(items[i])
    case DObject(fields) => forall i | 0 <= i < |fields| :: Printable(fields[i].value)
    case _ => true
  }

  /** The value a document is read back as: each UTF-8 byte of a string becomes a character, and a later field
      with the same key replaces an earlier one. */
  function Meaning(d: Doc): JsonValue
    decreases d
  {
    match d
    case DNull => Null
    case DBool(b) => Bool(b)
    case DInt(n) => Int(n)
    case DStr(s) => Str(Utf8Text(s))
    case DArray(items) => Array(Meanings(items))
    case DObject(fields) => Object(InsertAll(Pairs(fields), map[]))
  }

  function Meanings(items: seq<Doc>): (vs: seq<JsonValue>)
    ensures |vs| == |items| && forall i | 0 <= i < |items| :: vs[i] == Meaning(items[i])
    decreases items
  {
    if items == [] then [] else [Meaning(items[0])] + Meanings(items[1..])
  }

  function Pairs(fields: seq<Field>): (pairs: seq<(string, JsonValue)>)
    ensures |pairs| == |fields|
    ensures forall i | 0 <= i < |fields| :: pairs[i] == (Utf8Text(fields[i].key), Meaning(fields[i].value))
    decreases fields
  {
    if fields == [] then [] else [(Utf8Text(fields[0].key), Meaning(fields[0].value))] + Pairs(fields[1..])
  }

  function InsertAll(pairs: seq<(string, JsonValue)>, acc: map<string, JsonValue>): map<string, JsonValue> {
    if pairs == [] then acc else InsertAll(pairs[1..], acc[pairs[0].0 := pairs[0].1])
  }

  // ---- parsing what was printed --------------------------------------------

  lemma {:induction false} ReadsSplit(b: string, p: nat, x: string, y: string)
    requires Reads(b, p, x + y)
    ensures Reads(b, p, x) && Reads(b, p + |x|, y)
  {
    forall i | 0 <= i < |x| ensures x[i] == b[p + i] { assert x[i] == (x + y)[i]; }
    forall i | 0 <= i < |y| ensures y[i] == b[p + |x| + i] { assert y[i] == (x + y)[|x| + i]; }
  }

  lemma ReadsChar(b: string, p: nat, s: string)
    requires Reads(b, p, s) && s != []
    ensures p < |b| && b[p] == s[0]
  {
  }

  lemma {:induction false} HexRoundTrip(c: char)
    requires c < ' '
    ensures FromRadix16(['0', '0', HexChar(c as int / 16), HexChar(c as int % 16)]) == Some(c as int)
    ensures CharOf(c as int) == c
  {
    var hi, lo := HexChar(c as int / 16), HexChar(c as int % 16);
    var s := ['0', '0', hi, lo];
    assert s[..3] == ['0', '0', hi] && s[..3][..2] == ['0', '0'];
    assert s[..3][..2][..1] == ['0'] && s[..3][..2][..1][..0] == [];
    assert HexFold(['0']) == Some(0) && HexFold(['0', '0']) == Some(0);
    assert HexFold(['0', '0', hi]) == Some(c as int / 16);
  }

  /** Bytes the string parser copies as they are. */
  predicate Plain(s: string) { forall i | 0 <= i < |s| :: s[i] >= ' ' && s[i] != '\"' && s[i] != '\\' }

  lemma {:induction false} PlainRead(b: string, p: nat, s: string, acc: string)
    requires Plain(s) && Reads(b, p, s)
    ensures ParseChars(b, p, acc) == ParseChars(b, p + |s|, acc + s)
    decreases |s|
  {
    if s == [] {
      assert acc + s == acc;
    } else {
      assert b[p] == s[0];
      forall i | 0 <= i < |s[1..]| ensures s[1..][i] == b[p + 1 + i] { assert s[i + 1] == b[p + (i + 1)]; }
      PlainRead(b, p + 1, s[1..], acc + [s[0]]);
      Shift(acc, s);
    }
  }

  lemma Utf8Plain(c: char)
    requires c >= '\U{80}'
    ensures Plain(Utf8(c))
  {
  }

  /** A control character's four hexadecimal digits. */
  lemma {:induction false} ControlPrinted(b: string, p: nat, c: char, acc: string)
    requires c < ' ' && c != '\n' && c != '\r' && c != '\t' && Reads(b, p, Escape(c))
    ensures ParseChars(b, p, acc) == ParseChars(b, p + 6, acc + [c]) && |Escape(c)| == 6
  {
    var e := Escape(c);
    assert b[p] == e[0] && b[p + 1] == e[1] == 'u';
    assert b[p + 2..p + 6] == e[2..6] == ['0', '0', HexChar(c as int / 16), HexChar(c as int % 16)];
    HexRoundTrip(c);
  }

  /** One written character is read back as its UTF-8 bytes. */
  lemma {:induction false} CharPrinted(b: string, p: nat, c: char, acc: string)
    requires Reads(b, p, Escape(c))
    ensures ParseChars(b, p, acc) == ParseChars(b, p + |Escape(c)|, acc + Utf8(c))
  {
    var e := Escape(c);
    if c < ' ' && c != '\n' && c != '\r' && c != '\t' {
      ControlPrinted(b, p, c, acc);
    } else if |e| == 2 && c < '\U{80}' {
      assert b[p] == e[0] && b[p + 1] == e[1];
    } else {
      if c >= '\U{80}' { Utf8Plain(c); }
      PlainRead(b, p, e, acc);
    }
  }

  /** Past the first n characters the parser holds their UTF-8 bytes, with r still to come out. */
  ghost predicate ReadUpTo(b: string, p: nat, s: string, n: nat, r: Parsing<string>) {
    n <= |s| && p + |EscapeTo(s, n)| <= |b| && r == ParseChars(b, p + |EscapeTo(s, n)|, Utf8To(s, n))
  }

  lemma {:induction false} CharsPrinted(b: string, p: nat, s: string, n: nat, r: Parsing<string>)
    requires n <= |s| && Reads(b, p, EscapeTo(s, n)) && ReadUpTo(b, p, s, 0, r)
    ensures ReadUpTo(b, p, s, n, r)
  {
    if n > 0 {
      ReadsLast(b, p, s, n);
      CharsPrinted(b, p, s, n - 1, r);
      LastPrinted(b, p, s, n, r);
    }
  }

  lemma {:induction false} ReadsLast(b: string, p: nat, s: string, n: nat)
    requires 0 < n <= |s| && Reads(b, p, EscapeTo(s, n))
    ensures Reads(b, p, EscapeTo(s, n - 1)) && Reads(b, p + |EscapeTo(s, n - 1)|, Escape(s[n - 1]))
  {
    ReadsSplit(b, p, EscapeTo(s, n - 1), Escape(s[n - 1]));
  }

  lemma {:induction false} LastPrinted(b: string, p: nat, s: string, n: nat, r: Parsing<string>)
    requires 0 < n <= |s| && Reads(b, p + |EscapeTo(s, n - 1)|, Escape(s[n - 1])) && ReadUpTo(b, p, s, n - 1, r)
    ensures ReadUpTo(b, p, s, n, r)
  {
    CharPrinted(b, p + |EscapeTo(s, n - 1)|, s[n - 1], Utf8To(s, n - 1));
  }

  lemma Glue(a: string, b: string, c: string)
    ensures (a + b) + c == a + (b + c)
  {
  }

  lemma Shift(acc: string, s: string)
    requires s != []
    ensures acc + [s[0]] + s[1..] == acc + s
  {
  }

  lemma {:induction false} StringPrinted(b: string, p: nat, s: string)
    requires Reads(b, p, Quoted(s))
    ensures ParseString(b, p) == Ok((Utf8Text(s), p + |Quoted(s)|))
  {
    ReadsQuoted(b, p, EscapeAll(s));
    CharsPrinted(b, p + 1, s, |s|, ParseChars(b, p + 1, []));
  }

  lemma {:induction false} ReadsQuoted(b: string, p: nat, body: string)
    requires Reads(b, p, "\"" + (body + "\""))
    ensures p < |b| && b[p] == '"' && Reads(b, p + 1, body)
    ensures p + 1 + |body| < |b| && b[p + 1 + |body|] == '"'
  {
    ReadsChar(b, p, "\"" + (body + "\""));
    ReadsSplit(b, p, "\"", body + "\"");
    ReadsSplit(b, p + 1, body, "\"");
    ReadsChar(b, p + 1 + |body|, "\"");
  }

  /** A value may end here: the text ends, or what follows cannot continue a number. */
  predicate Delimited(b: string, q: nat) {
    q >= |b| || !(IsDigit(b[q]) || b[q] == '.' || b[q] == 'e' || b[q] == 'E')
  }

  lemma {:induction false} DigitsEndAt(b: string, p: nat, ds: string)
    requires AllDigits(ds) && Reads(b, p, ds) && Delimited(b, p + |ds|)
    ensures DigitsEnd(b, p) == p + |ds|
    decreases |ds|
  {
    if ds != [] {
      ReadsChar(b, p, ds);
      assert forall i | 0 <= i < |ds[1..]| :: ds[1..][i] == ds[i + 1];
      DigitsEndAt(b, p + 1, ds[1..]);
    }
  }

  lemma SliceRead(b: string, p: nat, s: string)
    requires Reads(b, p, s)
    ensures b[p..p + |s|] == s
  {
  }

  lemma {:induction false} NumberPrinted(b: string, p: nat, first: nat, n: nat)
    requires p < |b| && first == (if b[p] == '-' then p + 1 else p) && InI128(Negate(b[p] == '-', n))
    requires Reads(b, first, Digits(n)) && Delimited(b, first + |Digits(n)|)
    ensures ParseNumber(b, p) == Ok((Int(Negate(b[p] == '-', n)), first + |Digits(n)|))
  {
    ValueOfDigits(n);
    DigitsEndAt(b, first, Digits(n));
    SliceRead(b, first, Digits(n));
  }

  lemma {:induction false} IntPrinted(b: string, p: nat, n: int)
    requires InI128(n) && Reads(b, p, PrintInt(n)) && Delimited(b, p + |PrintInt(n)|)
    ensures ParseNumber(b, p) == Ok((Int(n), p + |PrintInt(n)|))
    ensures p < |b| && (b[p] == '-' || IsDigit(b[p]))
  {
    ReadsChar(b, p, PrintInt(n));
    if n < 0 {
      ReadsSplit(b, p, "-", Digits(-n));
      NumberPrinted(b, p, p + 1, -n);
    } else {
      NumberPrinted(b, p, p, n);
    }
  }

  /** The first character of a printed document: never white space, a comma or a closing bracket. */
  predicate Opens(c: char) { !IsWs(c) && c != ']' && c != '}' && c != ',' }

  lemma PrintOpens(d: Doc)
    ensures Print(d) != [] && Opens(Print(d)[0])
  {
  }

  lemma {:induction false} OpensAt(b: string, p: nat, d: Doc)
    requires Reads(b, p, Print(d))
    ensures p < |b| && Opens(b[p]) && SkipWs(b, p) == p
  {
    PrintOpens(d);
    ReadsChar(b, p, Print(d));
  }

  /** Where a closing bracket or a comma stands, a value may end and no space is skipped. */
  lemma {:induction false} ClosesAt(b: string, q: nat, tail: string)
    requires Reads(b, q, tail) && tail != [] && tail[0] in ",]}"
    ensures q < |b| && b[q] == tail[0] && Delimited(b, q) && SkipWs(b, q) == q
  {
    ReadsChar(b, q, tail);
  }

  lemma {:induction false} ScalarPrinted(b: string, p: nat, d: Doc)
    requires !d.DArray? && !d.DObject? && Printable(d) && Reads(b, p, Print(d)) && Delimited(b, p + |Print(d)|)
    ensures ParseValue(b, p) == Ok((Meaning(d), p + |Print(d)|))
  {
    OpensAt(b, p, d);
    ReadsChar(b, p, Print(d));
    if d.DStr? { StringPrinted(b, p, d.s); }
    if d.DInt? { IntPrinted(b, p, d.n); }
  }

  lemma JoinUnfold(parts: seq<string>, close: string)
    requires parts != [] && |close| == 1
    ensures Join(parts, close) == parts[0] + Rest(parts[1..], close)
    ensures |parts| == 1 ==> Rest(parts[1..], close) == close
    ensures |parts| > 1 ==> Rest(parts[1..], close) == "," + Join(parts[1..], close)
  {
  }

  lemma RestHead(parts: seq<string>, close: string)
    requires close == "]" || close == "}"
    ensures Rest(parts, close) != [] && Rest(parts, close)[0] in ",]}"
  {
  }

  lemma {:induction false} SplitAtClose(b: string, p: nat, first: string, rest: string)
    requires Reads(b, p, first + rest) && rest != [] && rest[0] in ",]}"
    ensures var q := p + |first|;
            && Reads(b, p, first) && Reads(b, q, rest) && q < |b| && b[q] == rest[0]
            && Delimited(b, q) && SkipWs(b, q) == q
  {
    ReadsSplit(b, p, first, rest);
    ClosesAt(b, p + |first|, rest);
  }

  /** Where the first of several joined parts ends. */
  lemma {:induction false} JoinFirst(b: string, p: nat, parts: seq<string>, close: string)
    requires parts != [] && (close == "]" || close == "}") && Reads(b, p, Join(parts, close))
    ensures var q := p + |parts[0]|; Reads(b, p, parts[0]) && q < |b| && Delimited(b, q) && SkipWs(b, q) == q
  {
    var rest := Rest(parts[1..], close);
    JoinUnfold(parts, close);
    RestHead(parts[1..], close);
    SplitAtClose(b, p, parts[0], rest);
  }

  /** After the last part stands the closing bracket ... */
  lemma {:induction false} JoinLast(b: string, p: nat, parts: seq<string>, close: string)
    requires |parts| == 1 && (close == "]" || close == "}") && Reads(b, p, Join(parts, close))
    ensures p + |parts[0]| < |b| && b[p + |parts[0]|] == close[0] && |Join(parts, close)| == |parts[0]| + 1
  {
    JoinUnfold(parts, close);
    SplitAtClose(b, p, parts[0], close);
  }

  /** ... and after any other a comma and the remaining parts. */
  lemma {:induction false} JoinNext(b: string, p: nat, parts: seq<string>, close: string)
    requires |parts| > 1 && (close == "]" || close == "}") && Reads(b, p, Join(parts, close))
    ensures p + |parts[0]| < |b| && b[p + |parts[0]|] == ',' && Reads(b, p + |parts[0]| + 1, Join(parts[1..], close))
    ensures |Join(parts, close)| == |parts[0]| + 1 + |Join(parts[1..], close)|
  {
    JoinUnfold(parts, close);
    SplitAtComma(b, p, Join(parts, close), parts[0], Join(parts[1..], close));
  }

  lemma {:induction false} SplitAtComma(b: string, p: nat, whole: string, first: string, rest: string)
    requires whole == first + ("," + rest) && Reads(b, p, whole)
    ensures p + |first| < |b| && b[p + |first|] == ',' && Reads(b, p + |first| + 1, rest)
    ensures |whole| == |first| + 1 + |rest|
  {
    SplitAtClose(b, p, first, "," + rest);
    ReadsSplit(b, p + |first|, ",", rest);
  }

  lemma {:induction false} EmptyLayout(b: string, p: nat, open: string, close: string)
    requires |open| == 1 && (close == "]" || close == "}") && Reads(b, p, open + close)
    ensures p + 1 < |b| && b[p + 1] == close[0] && SkipWs(b, p + 1) == p + 1
  {
    SplitAtClose(b, p, open, close);
  }

  lemma ArrayStart(b: string, p: nat)
    requires p + 1 < |b| && b[p] == '[' && SkipWs(b, p) == p && SkipWs(b, p + 1) == p + 1
    ensures ParseValue(b, p) == if b[p + 1] == ']' then Ok((Array([]), p + 2)) else ParseItems(b, p + 1, [])
  {
  }

  lemma {:induction false} ArrayWhole(b: string, p: nat, parts: seq<string>, r: Parsing<JsonValue>)
    requires parts != [] && parts[0] != [] && Opens(parts[0][0]) && Reads(b, p, "[" + Join(parts, "]"))
    requires Reads(b, p + 1, Join(parts, "]")) && ParseItems(b, p + 1, []) == r
    ensures ParseValue(b, p) == r
  {
    ReadsChar(b, p, "[" + Join(parts, "]"));
    JoinFirst(b, p + 1, parts, "]");
    ReadsChar(b, p + 1, parts[0]);
    ArrayStart(b, p);
  }

  lemma {:induction false} ArrayEmpty(b: string, p: nat)
    requires Reads(b, p, "[]")
    ensures ParseValue(b, p) == Ok((Array([]), p + 2))
  {
    assert "[" + "]" == "[]";
    EmptyLayout(b, p, "[", "]");
    ReadsChar(b, p, "[]");
    ArrayStart(b, p);
  }

  /** Wherever this text stands, followed by a delimiter, it parses to this value and no further. */
  ghost predicate Denotes(b: string, part: string, v: JsonValue) {
    forall q: nat | Reads(b, q, part) && Delimited(b, q + |part|) :: ParseValue(b, q) == Ok((v, q + |part|))
  }

  lemma ItemsStep(b: string, p: nat, acc: seq<JsonValue>, v: JsonValue, q: nat)
    requires p <= |b| && ParseValue(b, p) == Ok((v, q)) && q < |b| && SkipWs(b, q) == q
    ensures b[q] == ',' ==> ParseItems(b, p, acc) == ParseItems(b, q + 1, acc + [v])
    ensures b[q] == ']' ==> ParseItems(b, p, acc) == Ok((Array(acc + [v]), q + 1))
  {
  }

  lemma {:induction false} ItemsLast(b: string, p: nat, parts: seq<string>, acc: seq<JsonValue>, v: JsonValue)
    requires |parts| == 1 && Reads(b, p, Join(parts, "]")) && ParseValue(b, p) == Ok((v, p + |parts[0]|))
    ensures ParseItems(b, p, acc) == Ok((Array(acc + [v]), p + |Join(parts, "]")|))
  {
    JoinFirst(b, p, parts, "]");
    JoinLast(b, p, parts, "]");
    ItemsStep(b, p, acc, v, p + |parts[0]|);
  }

  lemma AppendShift(acc: seq<JsonValue>, vs: seq<JsonValue>)
    requires vs != []
    ensures (acc + [vs[0]]) + vs[1..] == acc + vs
    ensures |vs| == 1 ==> acc + [vs[0]] == acc + vs
  {
  }

  lemma {:induction false} ItemsNext(b: string, p: nat, parts: seq<string>, acc: seq<JsonValue>, v: JsonValue)
    requires |parts| > 1 && Reads(b, p, Join(parts, "]")) && ParseValue(b, p) == Ok((v, p + |parts[0]|))
    ensures Reads(b, p + |parts[0]| + 1, Join(parts[1..], "]"))
    ensures ParseItems(b, p, acc) == ParseItems(b, p + |parts[0]| + 1, acc + [v])
    ensures |Join(parts, "]")| == |parts[0]| + 1 + |Join(parts[1..], "]")|
  {
    JoinFirst(b, p, parts, "]");
    JoinNext(b, p, parts, "]");
    ItemsStep(b, p, acc, v, p + |parts[0]|);
  }

  ghost predicate DenoteAll(b: string, parts: seq<string>, vs: seq<JsonValue>) {
    |parts| == |vs| && forall i | 0 <= i < |parts| :: Denotes(b, parts[i], vs[i])
  }

  lemma {:induction false} FirstDenotes(b: string, p: nat, parts: seq<string>, vs: seq<JsonValue>)
    requires parts != [] && DenoteAll(b, parts, vs) && Reads(b, p, Join(parts, "]"))
    ensures ParseValue(b, p) == Ok((vs[0], p + |parts[0]|)) && DenoteAll(b, parts[1..], vs[1..])
  {
    JoinFirst(b, p, parts, "]");
    assert Denotes(b, parts[0], vs[0]);
  }

  lemma {:induction false} ItemsMore(b: string, p: nat, parts: seq<string>, vs: seq<JsonValue>, acc: seq<JsonValue>)
    requires |parts| > 1 && DenoteAll(b, parts, vs) && Reads(b, p, Join(parts, "]"))
    ensures var acc', p' := acc + [vs[0]], p + |parts[0]| + 1;
            && ParseItems(b, p, acc) == ParseItems(b, p', acc') && acc' + vs[1..] == acc + vs
            && Reads(b, p', Join(parts[1..], "]")) && p' + |Join(parts[1..], "]")| == p + |Join(parts, "]")|
    ensures DenoteAll(b, parts[1..], vs[1..])
  {
    FirstDenotes(b, p, parts, vs);
    AppendShift(acc, vs);
    ItemsNext(b, p, parts, acc, vs[0]);
  }

  lemma {:induction false} ItemsEnd(b: string, p: nat, parts: seq<string>, vs: seq<JsonValue>, acc: seq<JsonValue>)
    requires |parts| == 1 && DenoteAll(b, parts, vs) && Reads(b, p, Join(parts, "]"))
    ensures ParseItems(b, p, acc) == Ok((Array(acc + vs), p + |Join(parts, "]")|))
  {
    FirstDenotes(b, p, parts, vs);
    AppendShift(acc, vs);
    ItemsLast(b, p, parts, acc, vs[0]);
  }

  lemma {:induction false} ItemsJoined(
    b: string, p: nat, parts: seq<string>, vs: seq<JsonValue>, acc: seq<JsonValue>, all: seq<JsonValue>, end: nat,
    r: Parsing<JsonValue>)
    requires parts != [] && DenoteAll(b, parts, vs) && Reads(b, p, Join(parts, "]"))
    requires all == acc + vs && end == p + |Join(parts, "]")| && r == ParseItems(b, p, acc)
    ensures r == Ok((Array(all), end))
    decreases |parts|
  {
    if |parts| == 1 {
      ItemsEnd(b, p, parts, vs, acc);
    } else {
      ItemsMore(b, p, parts, vs, acc);
      ItemsJoined(b, p + |parts[0]| + 1, parts[1..], vs[1..], acc + [vs[0]], all, end, r);
    }
  }

  predicate AllOpen(parts: seq<string>) { forall i | 0 <= i < |parts| :: parts[i] != [] && Opens(parts[i][0]) }

  lemma {:induction false} ItemsAt(b: string, q: nat, parts: seq<string>, vs: seq<JsonValue>, end: nat)
    requires parts != [] && DenoteAll(b, parts, vs) && AllOpen(parts) && Reads(b, q, "[" + Join(parts, "]"))
    requires end == q + 1 + |Join(parts, "]")|
    ensures ParseValue(b, q) == Ok((Array(vs), end))
  {
    ReadsSplit(b, q, "[", Join(parts, "]"));
    assert [] + vs == vs;
    var r := ParseItems(b, q + 1, []);
    ItemsJoined(b, q + 1, parts, vs, [], vs, end, r);
    ArrayWhole(b, q, parts, r);
  }

  lemma {:induction false} ArrayAt(b: string, q: nat, parts: seq<string>, vs: seq<JsonValue>)
    requires DenoteAll(b, parts, vs) && AllOpen(parts) && Reads(b, q, "[" + Join(parts, "]"))
    ensures ParseValue(b, q) == Ok((Array(vs), q + 1 + |Join(parts, "]")|))
  {
    if parts == [] {
      assert "[" + Join(parts, "]") == "[]";
      ArrayEmpty(b, q);
    } else {
      ItemsAt(b, q, parts, vs, q + 1 + |Join(parts, "]")|);
    }
  }

  lemma {:induction false} ArrayDenotes(b: string, parts: seq<string>, vs: seq<JsonValue>)
    requires DenoteAll(b, parts, vs) && AllOpen(parts)
    ensures Denotes(b, "[" + Join(parts, "]"), Array(vs))
  {
    forall q: nat | Reads(b, q, "[" + Join(parts, "]")) { ArrayAt(b, q, parts, vs); }
  }

  lemma ObjectStart(b: string, p: nat)
    requires p + 1 < |b| && b[p] == '{' && SkipWs(b, p) == p && SkipWs(b, p + 1) == p + 1
    ensures ParseValue(b, p) == if b[p + 1] == '}' then Ok((Object(map[]), p + 2)) else ParseFields(b, p + 1, map[])
  {
  }

  lemma {:induction false} ObjectWhole(b: string, p: nat, parts: seq<string>, r: Parsing<JsonValue>)
    requires parts != [] && parts[0] != [] && Opens(parts[0][0]) && Reads(b, p, "{" + Join(parts, "}"))
    requires Reads(b, p + 1, Join(parts, "}")) && ParseFields(b, p + 1, map[]) == r
    ensures ParseValue(b, p) == r
  {
    ReadsChar(b, p, "{" + Join(parts, "}"));
    JoinFirst(b, p + 1, parts, "}");
    ReadsChar(b, p + 1, parts[0]);
    ObjectStart(b, p);
  }

  lemma {:induction false} ObjectEmpty(b: string, p: nat)
    requires Reads(b, p, "{}")
    ensures ParseValue(b, p) == Ok((Object(map[]), p + 2))
  {
    assert "{" + "}" == "{}";
    EmptyLayout(b, p, "{", "}");
    ReadsChar(b, p, "{}");
    ObjectStart(b, p);
  }

  ghost predicate DenotesMember(b: string, part: string, pair: (string, JsonValue)) {
    forall q: nat | Reads(b, q, part) && Delimited(b, q + |part|) :: ParseMember(b, q) == Ok((pair, q + |part|))
  }

  lemma FieldsStep(b: string, p: nat, acc: map<string, JsonValue>, key: string, v: JsonValue, q: nat)
    requires p <= |b| && ParseMember(b, p) == Ok(((key, v), q)) && q < |b| && SkipWs(b, q) == q
    ensures b[q] == ',' ==> ParseFields(b, p, acc) == ParseFields(b, q + 1, acc[key := v])
    ensures b[q] == '}' ==> ParseFields(b, p, acc) == Ok((Object(acc[key := v]), q + 1))
  {
  }

  lemma {:induction false} FieldsLast(
    b: string, p: nat, parts: seq<string>, acc: map<string, JsonValue>, pair: (string, JsonValue))
    requires |parts| == 1 && Reads(b, p, Join(parts, "}")) && ParseMember(b, p) == Ok((pair, p + |parts[0]|))
    ensures ParseFields(b, p, acc) == Ok((Object(acc[pair.0 := pair.1]), p + |Join(parts, "}")|))
  {
    JoinFirst(b, p, parts, "}");
    JoinLast(b, p, parts, "}");
    FieldsStep(b, p, acc, pair.0, pair.1, p + |parts[0]|);
  }

  lemma {:induction false} FieldsNext(
    b: string, p: nat, parts: seq<string>, acc: map<string, JsonValue>, pair: (string, JsonValue))
    requires |parts| > 1 && Reads(b, p, Join(parts, "}")) && ParseMember(b, p) == Ok((pair, p + |parts[0]|))
    ensures Reads(b, p + |parts[0]| + 1, Join(parts[1..], "}"))
    ensures ParseFields(b, p, acc) == ParseFields(b, p + |parts[0]| + 1, acc[pair.0 := pair.1])
    ensures |Join(parts, "}")| == |parts[0]| + 1 + |Join(parts[1..], "}")|
  {
    JoinFirst(b, p, parts, "}");
    JoinNext(b, p, parts, "}");
    FieldsStep(b, p, acc, pair.0, pair.1, p + |parts[0]|);
  }

  ghost predicate DenoteMembers(b: string, parts: seq<string>, pairs: seq<(string, JsonValue)>) {
    |parts| == |pairs| && forall i | 0 <= i < |parts| :: DenotesMember(b, parts[i], pairs[i])
  }

  lemma {:induction false} FirstMember(b: string, p: nat, parts: seq<string>, pairs: seq<(string, JsonValue)>)
    requires parts != [] && DenoteMembers(b, parts, pairs) && Reads(b, p, Join(parts, "}"))
    ensures ParseMember(b, p) == Ok((pairs[0], p + |parts[0]|)) && DenoteMembers(b, parts[1..], pairs[1..])
  {
    JoinFirst(b, p, parts, "}");
    assert DenotesMember(b, parts[0], pairs[0]);
  }

  lemma InsertStep(pairs: seq<(string, JsonValue)>, acc: map<string, JsonValue>)
    requires pairs != []
    ensures InsertAll(pairs, acc) == InsertAll(pairs[1..], acc[pairs[0].0 := pairs[0].1])
    ensures |pairs| == 1 ==> InsertAll(pairs, acc) == acc[pairs[0].0 := pairs[0].1]
  {
  }

  lemma {:induction false} FieldsEnd(
    b: string, p: nat, parts: seq<string>, pairs: seq<(string, JsonValue)>, acc: map<string, JsonValue>)
    requires |parts| == 1 && DenoteMembers(b, parts, pairs) && Reads(b, p, Join(parts, "}"))
    ensures ParseFields(b, p, acc) == Ok((Object(InsertAll(pairs, acc)), p + |Join(parts, "}")|))
  {
    FirstMember(b, p, parts, pairs);
    InsertStep(pairs, acc);
    FieldsLast(b, p, parts, acc, pairs[0]);
  }

  /** Past the first of several members the parser stands before the remaining ones. */
  lemma {:induction false} FieldsMore(
    b: string, p: nat, parts: seq<string>, pairs: seq<(string, JsonValue)>, acc: map<string, JsonValue>)
    requires |parts| > 1 && DenoteMembers(b, parts, pairs) && Reads(b, p, Join(parts, "}"))
    ensures var acc', p' := acc[pairs[0].0 := pairs[0].1], p + |parts[0]| + 1;
            && ParseFields(b, p, acc) == ParseFields(b, p', acc')
            && InsertAll(pairs, acc) == InsertAll(pairs[1..], acc')
            && Reads(b, p', Join(parts[1..], "}")) && p' + |Join(parts[1..], "}")| == p + |Join(parts, "}")|
    ensures DenoteMembers(b, parts[1..], pairs[1..])
  {
    FirstMember(b, p, parts, pairs);
    FieldsNext(b, p, parts, acc, pairs[0]);
    InsertStep(pairs, acc);
  }

  lemma {:induction false} FieldsJoined(
    b: string, p: nat, parts: seq<string>, pairs: seq<(string, JsonValue)>, acc: map<string, JsonValue>,
    all: map<string, JsonValue>, end: nat, r: Parsing<JsonValue>)
    requires parts != [] && DenoteMembers(b, parts, pairs) && Reads(b, p, Join(parts, "}"))
    requires all == InsertAll(pairs, acc) && end == p + |Join(parts, "}")| && r == ParseFields(b, p, acc)
    ensures r == Ok((Object(all), end))
    decreases |parts|
  {
    if |parts| == 1 {
      FieldsEnd(b, p, parts, pairs, acc);
    } else {
      FieldsMore(b, p, parts, pairs, acc);
      FieldsJoined(b, p + |parts[0]| + 1, parts[1..], pairs[1..], acc[pairs[0].0 := pairs[0].1], all, end, r);
    }
  }

  lemma {:induction false} ObjectAt(b: string, q: nat, parts: seq<string>, pairs: seq<(string, JsonValue)>)
    requires DenoteMembers(b, parts, pairs) && AllOpen(parts) && Reads(b, q, "{" + Join(parts, "}"))
    ensures ParseValue(b, q) == Ok((Object(InsertAll(pairs, map[])), q + 1 + |Join(parts, "}")|))
  {
    if parts == [] {
      assert "{" + Join(parts, "}") == "{}";
      ObjectEmpty(b, q);
    } else {
      ReadsSplit(b, q, "{", Join(parts, "}"));
      var r := ParseFields(b, q + 1, map[]);
      FieldsJoined(b, q + 1, parts, pairs, map[], InsertAll(pairs, map[]), q + 1 + |Join(parts, "}")|, r);
      ObjectWhole(b, q, parts, r);
    }
  }

  lemma {:induction false} ObjectDenotes(b: string, parts: seq<string>, pairs: seq<(string, JsonValue)>)
    requires DenoteMembers(b, parts, pairs) && AllOpen(parts)
    ensures Denotes(b, "{" + Join(parts, "}"), Object(InsertAll(pairs, map[])))
  {
    forall q: nat | Reads(b, q, "{" + Join(parts, "}")) { ObjectAt(b, q, parts, pairs); }
  }

  lemma MemberStep(b: string, p: nat, key: string, q: nat, v: JsonValue, end: nat)
    requires p < |b| && b[p] == '\"' && SkipWs(b, p) == p && ParseString(b, p) == Ok((key, q))
    requires q < |b| && b[q] == ':' && SkipWs(b, q) == q && ParseValue(b, q + 1) == Ok((v, end))
    ensures ParseMember(b, p) == Ok(((key, v), end))
  {
  }

  /** Where a member's key ends and its value begins. */
  lemma {:induction false} KeyAt(b: string, p: nat, key: string, text: string)
    requires Reads(b, p, Quoted(key) + (":" + text))
    ensures p < |b| && b[p] == '\"' && ParseString(b, p) == Ok((Utf8Text(key), p + |Quoted(key)|))
    ensures var q := p + |Quoted(key)|; q < |b| && b[q] == ':' && Reads(b, q + 1, text)
  {
    var q := p + |Quoted(key)|;
    ReadsSplit(b, p, Quoted(key), ":" + text);
    ReadsChar(b, p, Quoted(key));
    ReadsSplit(b, q, ":", text);
    ReadsChar(b, q, ":");
    StringPrinted(b, p, key);
  }

  lemma {:induction false} MemberAt(b: string, p: nat, key: string, text: string, v: JsonValue, end: nat)
    requires Denotes(b, text, v) && Reads(b, p, Quoted(key) + (":" + text)) && Delimited(b, end)
    requires end == p + |Quoted(key)| + 1 + |text|
    ensures ParseMember(b, p) == Ok(((Utf8Text(key), v), end))
  {
    KeyAt(b, p, key, text);
    assert ParseValue(b, p + |Quoted(key)| + 1) == Ok((v, end));
    MemberStep(b, p, Utf8Text(key), p + |Quoted(key)|, v, end);
  }

  lemma {:induction false} MemberDenotes(b: string, key: string, text: string, v: JsonValue)
    requires Denotes(b, text, v)
    ensures DenotesMember(b, Quoted(key) + (":" + text), (Utf8Text(key), v))
  {
    var part := Quoted(key) + (":" + text);
    assert |part| == |Quoted(key)| + 1 + |text|;
    forall p: nat | Reads(b, p, part) && Delimited(b, p + |part|)
      ensures ParseMember(b, p) == Ok(((Utf8Text(key), v), p + |part|))
    {
      MemberAt(b, p, key, text, v, p + |part|);
    }
  }

  lemma {:induction false} ScalarDenotes(b: string, d: Doc)
    requires !d.DArray? && !d.DObject? && Printable(d)
    ensures Denotes(b, Print(d), Meaning(d))
  {
    forall q: nat | Reads(b, q, Print(d)) && Delimited(b, q + |Print(d)|)
      ensures ParseValue(b, q) == Ok((Meaning(d), q + |Print(d)|))
    {
      ScalarPrinted(b, q, d);
    }
  }

  /** A printed document, wherever it stands and whatever delimiter follows, parses to what it stands for
      and the parser stops exactly where it ends. */
  lemma {:induction false} PrintDenotes(b: string, d: Doc)
    requires Printable(d)
    ensures Denotes(b, Print(d), Meaning(d))
    decreases d
  {
    match d
    case DArray(items) =>
      forall i | 0 <= i < |items|
        ensures Denotes(b, Prints(items)[i], Meanings(items)[i]) && Prints(items)[i] != [] && Opens(Prints(items)[i][0])
      {
        PrintDenotes(b, items[i]);
        PrintOpens(items[i]);
      }
      ArrayDenotes(b, Prints(items), Meanings(items));
    case DObject(fields) =>
      forall i | 0 <= i < |fields|
        ensures DenotesMember(b, PrintFields(fields)[i], Pairs(fields)[i])
        ensures PrintFields(fields)[i] != [] && Opens(PrintFields(fields)[i][0])
      {
        PrintDenotes(b, fields[i].value);
        MemberDenotes(b, fields[i].key, Print(fields[i].value), Meaning(fields[i].value));
      }
      ObjectDenotes(b, PrintFields(fields), Pairs(fields));
    case _ => ScalarDenotes(b, d);
  }

  /** Parsing a printed document returns what it stands for. */
  lemma {:induction false} ParseAfterPrint(d: Doc)
    requires Printable(d)
    ensures Parse(Print(d)) == Ok(Meaning(d))
  {
    var b := Print(d);
    assert Reads(b, 0, b);
    OpensAt(b, 0, d);
    PrintDenotes(b, d);
  }

  // ---- the mutable writer --------------------------------------------------

  /** Parts separated by commas, not yet closed. */
  function Open(parts: seq<string>): string {
    if parts == [] then "" else if |parts| == 1 then parts[0]
    else Open(parts[..|parts| - 1]) + ("," + parts[|parts| - 1])
  }

  function RestOpen(parts: seq<string>): string {
    if parts == [] then "" else "," + (parts[0] + RestOpen(parts[1..]))
  }

  lemma {:induction false} RestOpenAppend(parts: seq<string>, x: string)
    ensures RestOpen(parts + [x]) == RestOpen(parts) + ("," + x)
  {
    if parts == [] {
      assert (parts + [x])[1..] == [];
    } else {
      assert (parts + [x])[1..] == parts[1..] + [x];
      RestOpenAppend(parts[1..], x);
    }
  }

  lemma {:induction false} OpenIsRest(parts: seq<string>)
    requires parts != []
    ensures Open(parts) == parts[0] + RestOpen(parts[1..])
    decreases |parts|
  {
    if |parts| > 1 {
      var init, last := parts[..|parts| - 1], parts[|parts| - 1];
      OpenIsRest(init);
      assert parts[1..] == init[1..] + [last];
      RestOpenAppend(init[1..], last);
    }
  }

  lemma {:induction false} RestCloses(parts: seq<string>, close: string)
    ensures Rest(parts, close) == RestOpen(parts) + close
  {
    if parts != [] { RestCloses(parts[1..], close); }
  }

  /** Closing the open form gives the joined form. */
  lemma {:induction false} OpenCloses(parts: seq<string>, close: string)
    ensures Join(parts, close) == Open(parts) + close
  {
    if parts != [] {
      OpenIsRest(parts);
      RestCloses(parts[1..], close);
    }
  }

  lemma {:induction false} OpenStep(parts: seq<string>, i: nat)
    requires i < |parts|
    ensures Open(parts[..i + 1]) == Open(parts[..i]) + ((if i > 0 then "," else "") + parts[i])
  {
    assert parts[..i + 1][..i] == parts[..i];
  }

  /** `JsonWriter`: an append-only buffer. */
  class JsonWriter {
    var buf: string

    constructor ()
      ensures buf == ""
    {
      buf := "";
    }

    method Push(text: string)
      modifies this
      ensures buf == old(buf) + text
    {
      buf := buf + text;
    }

    /** `write_json_string`. */
    method WriteString(s: string)
      modifies this
      ensures buf == old(buf) + Quoted(s)
    {
      ghost var was := buf;
      buf := buf + "\"";
      for i := 0 to |s|
        invariant buf == was + ("\"" + EscapeTo(s, i))
      {
        Regroup(was, "\"", EscapeTo(s, i), Escape(s[i]));
        buf := buf + Escape(s[i]);
      }
      Regroup(was, "\"", EscapeAll(s), "\"");
      buf := buf + "\"";
    }
  }

  /** What stands before the next key. */
  function Separator(n: nat): string { if n == 0 then "{" else "," }

  /** An object's text before its closing brace, field after field. */
  function Partial(fields: seq<Field>, n: nat): string
    requires n <= |fields|
  {
    if n == 0 then "" else (Partial(fields, n - 1) + Separator(n - 1)) + PrintField(fields[n - 1])
  }

  lemma {:induction false} PartialFront(fields: seq<Field>, longer: seq<Field>, n: nat)
    requires n <= |fields| <= |longer| && forall i | 0 <= i < n :: longer[i] == fields[i]
    ensures Partial(longer, n) == Partial(fields, n)
  {
    if n > 0 { PartialFront(fields, longer, n - 1); }
  }

  /** The object's text with the next key written. */
  function Keyed(fields: seq<Field>, k: string): string {
    (Partial(fields, |fields|) + Separator(|fields|)) + (Quoted(k) + ":")
  }

  lemma MemberText(o: string, q: string, t: string)
    ensures (o + (q + ":")) + t == o + (q + (":" + t))
  {
  }

  /** A key, then its value: one more field. */
  lemma {:induction false} KeyedThen(fields: seq<Field>, k: string, d: Doc)
    ensures Keyed(fields, k) + Print(d) == Partial(fields + [Field(k, d)], |fields| + 1)
  {
    PartialFront(fields, fields + [Field(k, d)], |fields|);
    MemberText(Partial(fields, |fields|) + Separator(|fields|), Quoted(k), Print(d));
  }

  lemma CommaText(o: string, x: string)
    ensures (("{" + o) + ",") + x == "{" + (o + ("," + x)) && ("" + "{") + x == "{" + ("" + ("" + x))
  {
  }

  /** The fields so far are the object's open text. */
  lemma {:induction false} PartialText(fields: seq<Field>, n: nat)
    requires n <= |fields|
    ensures Partial(fields, n) == if n == 0 then "" else "{" + Open(PrintFields(fields)[..n])
  {
    if n > 0 {
      PartialText(fields, n - 1);
      OpenStep(PrintFields(fields), n - 1);
      CommaText(Open(PrintFields(fields)[..n - 1]), PrintField(fields[n - 1]));
    }
  }

  lemma {:induction false} PartialCloses(fields: seq<Field>)
    ensures (if fields == [] then "{" else Partial(fields, |fields|)) + "}" == Print(DObject(fields))
  {
    PartialText(fields, |fields|);
    assert PrintFields(fields)[..|fields|] == PrintFields(fields);
    OpenCloses(PrintFields(fields), "}");
  }

  lemma KeyText(base: string, part: string, sep: string, q: string)
    ensures (((base + part) + sep) + q) + ":" == base + ((part + sep) + (q + ":"))
  {
  }

  function OptDoc(n: Option<u64>): Doc { if n.Some? then DInt(n.value) else DNull }

  /** `ObjectWriter`: one object's fields, in call order, on a shared writer. */
  class ObjectWriter {
    const w: JsonWriter
    var first: bool
    ghost const base: string
    ghost var fields: seq<Field>

    /** The buffer is what it was, then the fields so far. */
    ghost predicate Valid() reads this, w {
      first == (fields == []) && w.buf == base + Partial(fields, |fields|)
    }

    /** At `at` the next key was written. */
    ghost predicate Opened(k: string, at: string) reads this {
      !first && at == base + Keyed(fields, k)
    }

    constructor (w: JsonWriter)
      ensures this.w == w && base == w.buf && fields == [] && Valid()
    {
      this.w, first, base, fields := w, true, w.buf, [];
    }

    /** `key`: an opening brace or a comma, the key and a colon. */
    method Key(k: string) returns (ghost at: string)
      requires Valid()
      modifies this, w
      ensures at == w.buf && Opened(k, at) && fields == old(fields)
    {
      KeyText(base, Partial(fields, |fields|), Separator(|fields|), Quoted(k));
      if first {
        w.Push("{");
        first := false;
      } else {
        w.Push(",");
      }
      w.WriteString(k);
      w.Push(":");
      at := w.buf;
    }

    /** The value of the last key is complete. */
    method Added(k: string, ghost d: Doc, ghost at: string)
      requires Opened(k, at) && w.buf == at + Print(d)
      modifies this`fields
      ensures Valid() && fields == old(fields) + [Field(k, d)]
    {
      KeyedThen(fields, k, d);
      Glue(base, Keyed(fields, k), Print(d));
      fields := fields + [Field(k, d)];
    }

    method IntField(k: string, n: int)
      requires Valid()
      modifies this, w
      ensures Valid() && fields == old(fields) + [Field(k, DInt(n))]
    {
      ghost var at := Key(k);
      w.Push(PrintInt(n));
      Added(k, DInt(n), at);
    }

    method BoolField(k: string, b: bool)
      requires Valid()
      modifies this, w
      ensures Valid() && fields == old(fields) + [Field(k, DBool(b))]
    {
      ghost var at := Key(k);
      w.Push(if b then "true" else "false");
      Added(k, DBool(b), at);
    }

    method StrField(k: string, s: string)
      requires Valid()
      modifies this, w
      ensures Valid() && fields == old(fields) + [Field(k, DStr(s))]
    {
      ghost var at := Key(k);
      w.WriteString(s);
      Added(k, DStr(s), at);
    }

    /** A number or null. */
    method OptField(k: string, n: Option<u64>)
      requires Valid()
      modifies this, w
      ensures Valid() && fields == old(fields) + [Field(k, OptDoc(n))]
    {
      ghost var at := Key(k);
      w.Push(if n.Some? then PrintInt(n.value) else "null");
      Added(k, OptDoc(n), at);
    }

    method Finish(ghost all: seq<Field>)
      requires Valid() && fields == all
      modifies w
      ensures w.buf == base + Print(DObject(all))
    {
      PartialCloses(fields);
      if first { w.Push("{"); }
      w.Push("}");
    }
  }

  /** `write_array`: the items written so far, and one more after its comma. */
  lemma {:induction false} OpenMore(was: string, open: string, parts: seq<string>, i: nat)
    requires i < |parts|
    ensures (was + (open + Open(parts[..i]))) + ((if i > 0 then "," else "") + parts[i])
         == was + (open + Open(parts[..i + 1]))
  {
    OpenStep(parts, i);
    Regroup(was, open, Open(parts[..i]), (if i > 0 then "," else "") + parts[i]);
  }

  lemma {:induction false} OpenDone(was: string, open: string, parts: seq<string>, close: string)
    ensures (was + (open + Open(parts[..|parts|]))) + close == was + (open + Join(parts, close))
  {
    assert parts[..|parts|] == parts;
    OpenCloses(parts, close);
    Regroup(was, open, Open(parts), close);
  }

  lemma Regroup(a: string, b: string, c: string, d: string)
    ensures (a + (b + c)) + d == a + (b + (c + d))
  {
  }
}
