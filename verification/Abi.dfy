/** Printing contract ABI types, and a reader that gives the type back whatever is printed
    after it. */
module Abi {
  datatype AbiType =
    | Uint128 | Int128 | Bool | Principal | NoneType
    | Buffer(length: nat)
    | Response(ok: AbiType, error: AbiType)
    | Optional(inner: AbiType)
    | Tuple(fields: seq<Field>)
    | List(element: AbiType, maxLength: nat)

  datatype Field = Field(name: string, fieldType: AbiType)

  function Decimal(n: nat): string {
    if n < 10 then [DigitChar(n)] else Decimal(n / 10) + [DigitChar(n % 10)]
  }

  function DigitChar(d: nat): char
    requires d < 10
  {
    ('0' as int + d) as char
  }

  function HexChar(d: nat): char
    requires d < 16
  {
    if d < 10 then ('0' as int + d) as char else ('a' as int + d - 10) as char
  }

  /** How JSON.stringify writes one character inside a string. */
  function Escaped(c: char): string {
    if c == '\"' then "\\\""
    else if c == '\\' then "\\\\"
    else if c as int == 8 then "\\b"
    else if c as int == 9 then "\\t"
    else if c as int == 10 then "\\n"
    else if c as int == 12 then "\\f"
    else if c as int == 13 then "\\r"
    else if c as int < 32 then "\\u00" + [HexChar(c as int / 16), HexChar(c as int % 16)]
    else [c]
  }

  function EscapedAll(s: string): string {
    if s == "" then "" else Escaped(s[0]) + EscapedAll(s[1..])
  }

  /** JSON.stringify of a string. */
  function Quoted(s: string): string {
    "\"" + EscapedAll(s) + "\""
  }

  /** `getTypeString`. */
  function TypeString(t: AbiType): string
    decreases t, 1
  {
    match t
    case Uint128 => "uint128"
    case Int128 => "int128"
    case Bool => "bool"
    case Principal => "principal"
    case NoneType => "none"
    case Buffer(n) => "buffer(" + (Decimal(n) + ")")
    case Response(ok, error) => "response(" + (TypeString(ok) + "," + TypeString(error) + ")")
    case Optional(inner) => "optional(" + (TypeString(inner) + ")")
    case Tuple(fields) => "tuple(" + (FieldsString(fields) + ")")
    case List(element, n) => "list(" + (TypeString(element) + "," + Decimal(n) + ")")
  }

  /** The fields mapped and joined with commas. */
  function FieldsString(fs: seq<Field>): string
    decreases fs, 0
  {
    if fs == [] then ""
    else FieldString(fs[0]) + (if |fs| == 1 then "" else "," + FieldsString(fs[1..]))
  }

  function FieldString(f: Field): string
    decreases f, 2
  {
    Quoted(f.name) + ":" + TypeString(f.fieldType)
  }

  // ---- Reading types ---------------------------------------------------------------

  /** What a reader finds at the front of a text, and what follows it. */
  datatype Found<+T> = Found(value: T, rest: string) | NotFound {
    predicate IsFailure() { NotFound? }
    function PropagateFailure<U>(): Found<U>
      requires NotFound?
    {
      NotFound
    }
    function Extract(): (T, string)
      requires Found?
    {
      (value, rest)
    }
  }

  /** The text after an expected word. */
  function ReadWord(s: string, word: string): (r: Found<()>)
    ensures r.Found? ==> |r.rest| == |s| - |word|
  {
    if |word| <= |s| && s[..|word|] == word then Found((), s[|word|..]) else NotFound
  }

  predicate IsDigit(c: char) {
    '0' <= c <= '9'
  }

  /** How many digits the text starts with. */
  function DigitRun(s: string): (n: nat)
    ensures n <= |s| && forall i :: 0 <= i < n ==> IsDigit(s[i])
  {
    if s == "" || !IsDigit(s[0]) then 0 else 1 + DigitRun(s[1..])
  }

  function NumberOf(digits: string): nat
    requires forall i :: 0 <= i < |digits| ==> IsDigit(digits[i])
  {
    if digits == "" then 0 else
    assert IsDigit(digits[|digits| - 1]);
    NumberOf(digits[..|digits| - 1]) * 10 + (digits[|digits| - 1] as int - '0' as int)
  }

  function ReadNumber(s: string): (r: Found<nat>)
    ensures r.Found? ==> |r.rest| < |s|
  {
    var n := DigitRun(s);
    if n == 0 then NotFound else Found(NumberOf(s[..n]), s[n..])
  }

  function HexValue(c: char): int {
    if '0' <= c <= '9' then c as int - '0' as int
    else if 'a' <= c <= 'f' then c as int - 'a' as int + 10
    else 0
  }

  /** One character of a JSON string. */
  function ReadChar(s: string): (r: Found<char>)
    ensures r.Found? ==> |r.rest| < |s|
  {
    if s == "" || s[0] == '\"' then NotFound
    else if s[0] != '\\' then Found(s[0], s[1..])
    else if |s| == 1 then NotFound
    else match s[1]
      case '\"' => Found('\"', s[2..])
      case '\\' => Found('\\', s[2..])
      case 'b' => Found(8 as char, s[2..])
      case 't' => Found(9 as char, s[2..])
      case 'n' => Found(10 as char, s[2..])
      case 'f' => Found(12 as char, s[2..])
      case 'r' => Found(13 as char, s[2..])
      case 'u' => if |s| < 6 || s[2..4] != "00" then NotFound else Found((HexValue(s[4]) * 16 + HexValue(s[5])) as char, s[6..])
      case _ => NotFound
  }

  /** The characters up to a closing quote. */
  function ReadChars(s: string): (r: Found<string>)
    ensures r.Found? ==> |r.rest| < |s|
    decreases |s|
  {
    if s != "" && s[0] == '\"' then Found("", s[1..]) else
    var (c, rest) :- ReadChar(s);
    var (more, rest) :- ReadChars(rest);
    Found([c] + more, rest)
  }

  function ReadName(s: string): (r: Found<string>)
    ensures r.Found? ==> |r.rest| < |s|
  {
    var (_, rest) :- ReadWord(s, "\"");
    ReadChars(rest)
  }

  /** A type, by its first letters. */
  function ReadType(s: string): (r: Found<AbiType>)
    ensures r.Found? ==> |r.rest| < |s|
    decreases |s|, 0
  {
    if s == "" then NotFound
    else match s[0]
      case 'u' => var (_, rest) :- ReadWord(s, "uint128"); Found(Uint128, rest)
      case 'i' => var (_, rest) :- ReadWord(s, "int128"); Found(Int128, rest)
      case 'p' => var (_, rest) :- ReadWord(s, "principal"); Found(Principal, rest)
      case 'n' => var (_, rest) :- ReadWord(s, "none"); Found(NoneType, rest)
      case 'b' =>
        if |s| > 1 && s[1] == 'o' then
          var (_, rest) :- ReadWord(s, "bool");
          Found(Bool, rest)
        else
          var (_, rest) :- ReadWord(s, "buffer(");
          var (n, rest) :- ReadNumber(rest);
          var (_, rest) :- ReadWord(rest, ")");
          Found(Buffer(n), rest)
      case 'r' =>
        var (_, rest) :- ReadWord(s, "response(");
        var (ok, rest) :- ReadType(rest);
        var (_, rest) :- ReadWord(rest, ",");
        var (error, rest) :- ReadType(rest);
        var (_, rest) :- ReadWord(rest, ")");
        Found(Response(ok, error), rest)
      case 'o' =>
        var (_, rest) :- ReadWord(s, "optional(");
        var (inner, rest) :- ReadType(rest);
        var (_, rest) :- ReadWord(rest, ")");
        Found(Optional(inner), rest)
      case 't' =>
        var (_, rest) :- ReadWord(s, "tuple(");
        if rest != "" && rest[0] == ')' then Found(Tuple([]), rest[1..]) else
        var (fields, rest) :- ReadFields(rest);
        Found(Tuple(fields), rest)
      case 'l' =>
        var (_, rest) :- ReadWord(s, "list(");
        var (element, rest) :- ReadType(rest);
        var (_, rest) :- ReadWord(rest, ",");
        var (n, rest) :- ReadNumber(rest);
        var (_, rest) :- ReadWord(rest, ")");
        Found(List(element, n), rest)
      case _ => NotFound
  }

  /** One or more fields up to the closing parenthesis. */
  function ReadFields(s: string): (r: Found<seq<Field>>)
    ensures r.Found? ==> |r.rest| < |s|
    decreases |s|, 1
  {
    var (name, rest) :- ReadName(s);
    var (_, rest) :- ReadWord(rest, ":");
    var (fieldType, rest) :- ReadType(rest);
    if rest != "" && rest[0] == ')' then Found([Field(name, fieldType)], rest[1..]) else
    var (_, rest) :- ReadWord(rest, ",");
    var (more, rest) :- ReadFields(rest);
    Found([Field(name, fieldType)] + more, rest)
  }

  // ---- The printed text is read back -----------------------------------------------

  lemma {:induction false} WordRead(word: string, u: string)
    ensures ReadWord(word + u, word) == Found((), u)
  {
  }

  lemma {:induction false} DecimalValue(n: nat)
    ensures |Decimal(n)| > 0 && (forall i :: 0 <= i < |Decimal(n)| ==> IsDigit(Decimal(n)[i])) && NumberOf(Decimal(n)) == n
  {
    if n >= 10 {
      DecimalValue(n / 10);
      var low := Decimal(n / 10);
      assert Decimal(n)[..|low|] == low;
    } else {
      assert [DigitChar(n)][..0] == "";
    }
  }

  lemma {:induction false} DigitRunOf(d: string, u: string)
    requires (forall i :: 0 <= i < |d| ==> IsDigit(d[i])) && (u == "" || !IsDigit(u[0]))
    ensures DigitRun(d + u) == |d|
  {
    if d == "" {
      assert d + u == u;
    } else {
      assert (d + u)[1..] == d[1..] + u;
      DigitRunOf(d[1..], u);
    }
  }

  /** A printed number is read as that number, up to the next character that is no digit. */
  lemma {:induction false} NumberRead(n: nat, u: string)
    requires u == "" || !IsDigit(u[0])
    ensures ReadNumber(Decimal(n) + u) == Found(n, u)
  {
    DecimalValue(n);
    DigitRunOf(Decimal(n), u);
    hide Decimal;
    assert (Decimal(n) + u)[..|Decimal(n)|] == Decimal(n);
  }

  lemma {:induction false} CharRead(c: char, u: string)
    ensures ReadChar(Escaped(c) + u) == Found(c, u)
    ensures Escaped(c) != "" && Escaped(c)[0] != '\"'
  {
    var e := Escaped(c);
    var n := c as int;
    if |e| == 1 {
      assert (e + u)[1..] == u;
    } else if |e| == 2 {
      assert (e + u)[2..] == u;
    } else {
      assert (e + u)[2..4] == "00" && (e + u)[6..] == u && (e + u)[4] == HexChar(n / 16) && (e + u)[5] == HexChar(n % 16);
      assert HexValue(HexChar(n / 16)) == n / 16 && HexValue(HexChar(n % 16)) == n % 16;
    }
  }

  lemma {:induction false} CharsRead(a: string, u: string)
    ensures ReadChars(EscapedAll(a) + "\"" + u) == Found(a, u)
  {
    if a == "" {
      assert EscapedAll(a) + "\"" + u == "\"" + u;
    } else {
      var e, more := Escaped(a[0]), EscapedAll(a[1..]) + "\"" + u;
      assert EscapedAll(a) + "\"" + u == e + more;
      hide Escaped, ReadChar, EscapedAll, ReadChars;
      CharRead(a[0], more);
      CharsRead(a[1..], u);
      OneMoreChar(e + more, a[0], more);
      assert [a[0]] + a[1..] == a;
    }
  }

  lemma {:induction false} OneMoreChar(s: string, c: char, more: string)
    requires s != "" && s[0] != '\"' && ReadChar(s) == Found(c, more)
    ensures ReadChars(s) == match ReadChars(more) case Found(cs, u) => Found([c] + cs, u) case NotFound => NotFound
  {
    hide ReadChar;
  }

  /** A name in quotes, escapes included, is read as that name. */
  lemma {:induction false} NameRead(a: string, u: string)
    ensures ReadName(Quoted(a) + u) == Found(a, u)
  {
    hide EscapedAll, ReadChars;
    var inner := EscapedAll(a) + "\"" + u;
    assert Quoted(a) + u == "\"" + inner;
    WordRead("\"", inner);
    CharsRead(a, u);
  }

  /** The printer is inverted: whatever follows, the type is read back and reading stops there. */
  lemma {:induction false} TypeRead(t: AbiType, u: string)
    ensures ReadType(TypeString(t) + u) == Found(t, u)
    decreases t, 1
  {
    match t
    case Uint128 => WordRead("uint128", u);
    case Int128 => WordRead("int128", u);
    case Bool => WordRead("bool", u);
    case Principal => WordRead("principal", u);
    case NoneType => WordRead("none", u);
    case Buffer(n) => BufferRead(n, u);
    case Response(ok, error) =>
      TypeRead(ok, "," + (TypeString(error) + (")" + u)));
      TypeRead(error, ")" + u);
      ResponseRead(ok, error, u);
    case Optional(inner) =>
      TypeRead(inner, ")" + u);
      OptionalRead(inner, u);
    case Tuple(fields) =>
      if fields != [] { FieldsRead(fields, u); }
      TupleRead(fields, u);
    case List(element, n) =>
      TypeRead(element, "," + (Decimal(n) + (")" + u)));
      ListRead(element, n, u);
  }

  lemma {:induction false} BufferRead(n: nat, u: string)
    ensures ReadType("buffer(" + (Decimal(n) + ")") + u) == Found(Buffer(n), u)
  {
    hide Decimal, ReadNumber;
    var rest := Decimal(n) + (")" + u);
    Regroup("buffer(", Decimal(n), "", u);
    WordRead("buffer(", rest);
    NumberRead(n, ")" + u);
    WordRead(")", u);
  }

  lemma {:induction false} Regroup(head: string, x: string, y: string, u: string)
    ensures head + (x + "," + y + ")") + u == head + (x + ("," + (y + (")" + u))))
    ensures head + (x + ")") + u == head + (x + (")" + u))
  {
    assert x + "," + y + ")" == x + ("," + (y + ")"));
    assert (x + ("," + (y + ")"))) + u == x + ("," + (y + (")" + u)));
  }

  lemma {:induction false} ResponseRead(ok: AbiType, error: AbiType, u: string)
    requires ReadType(TypeString(ok) + ("," + (TypeString(error) + (")" + u)))) == Found(ok, "," + (TypeString(error) + (")" + u)))
    requires ReadType(TypeString(error) + (")" + u)) == Found(error, ")" + u)
    ensures ReadType("response(" + (TypeString(ok) + "," + TypeString(error) + ")") + u) == Found(Response(ok, error), u)
  {
    hide TypeString;
    var last := TypeString(error) + (")" + u);
    var rest := TypeString(ok) + ("," + last);
    Regroup("response(", TypeString(ok), TypeString(error), u);
    WordRead("response(", rest);
    WordRead(",", last);
    WordRead(")", u);
  }

  lemma {:induction false} OptionalRead(inner: AbiType, u: string)
    requires ReadType(TypeString(inner) + (")" + u)) == Found(inner, ")" + u)
    ensures ReadType("optional(" + (TypeString(inner) + ")") + u) == Found(Optional(inner), u)
  {
    hide TypeString;
    var rest := TypeString(inner) + (")" + u);
    Regroup("optional(", TypeString(inner), "", u);
    WordRead("optional(", rest);
    WordRead(")", u);
  }

  lemma {:induction false} ListRead(element: AbiType, n: nat, u: string)
    requires ReadType(TypeString(element) + ("," + (Decimal(n) + (")" + u)))) == Found(element, "," + (Decimal(n) + (")" + u)))
    ensures ReadType("list(" + (TypeString(element) + "," + Decimal(n) + ")") + u) == Found(List(element, n), u)
  {
    hide TypeString, Decimal, ReadNumber;
    var last := Decimal(n) + (")" + u);
    var rest := TypeString(element) + ("," + last);
    Regroup("list(", TypeString(element), Decimal(n), u);
    WordRead("list(", rest);
    WordRead(",", last);
    NumberRead(n, ")" + u);
    WordRead(")", u);
  }

  lemma {:induction false} TupleRead(fields: seq<Field>, u: string)
    requires fields != [] ==> ReadFields(FieldsString(fields) + (")" + u)) == Found(fields, u)
    ensures ReadType("tuple(" + (FieldsString(fields) + ")") + u) == Found(Tuple(fields), u)
  {
    if fields == [] { assert FieldsString(fields) == ""; } else { FieldsStart(fields); }
    hide FieldsString, ReadFields, ReadType;
    var rest := FieldsString(fields) + (")" + u);
    Regroup("tuple(", FieldsString(fields), "", u);
    if fields == [] {
      assert rest == ")" + u;
      EmptyTuple(u);
    } else {
      FilledTuple(rest);
    }
  }

  lemma {:induction false} EmptyTuple(u: string)
    ensures ReadType("tuple(" + (")" + u)) == Found(Tuple([]), u)
  {
    hide ReadFields;
    WordRead("tuple(", ")" + u);
    assert (")" + u)[1..] == u;
  }

  lemma {:induction false} FilledTuple(rest: string)
    requires rest != "" && rest[0] != ')'
    ensures ReadType("tuple(" + rest) == match ReadFields(rest) case Found(fs, u) => Found(Tuple(fs), u) case NotFound => NotFound
  {
    hide ReadFields;
    WordRead("tuple(", rest);
  }

  lemma {:induction false} FieldsStart(fields: seq<Field>)
    requires fields != []
    ensures FieldsString(fields) != "" && FieldsString(fields)[0] == '\"'
  {
    assert Quoted(fields[0].name)[0] == '\"';
    hide Quoted, TypeString;
    assert FieldString(fields[0])[0] == '\"';
  }

  /** The fields of a tuple are read back up to its closing parenthesis. */
  lemma {:induction false} FieldsRead(fields: seq<Field>, u: string)
    requires fields != []
    ensures ReadFields(FieldsString(fields) + (")" + u)) == Found(fields, u)
    decreases fields, 0
  {
    var f := fields[0];
    var after := if |fields| == 1 then ")" + u else "," + (FieldsString(fields[1..]) + (")" + u));
    TypeRead(f.fieldType, after);
    if |fields| > 1 { FieldsRead(fields[1..], u); }
    FieldThenRest(fields, u);
  }

  lemma {:induction false} FieldThenRest(fields: seq<Field>, u: string)
    requires fields != []
    requires var after := if |fields| == 1 then ")" + u else "," + (FieldsString(fields[1..]) + (")" + u));
             ReadType(TypeString(fields[0].fieldType) + after) == Found(fields[0].fieldType, after)
    requires |fields| > 1 ==> ReadFields(FieldsString(fields[1..]) + (")" + u)) == Found(fields[1..], u)
    ensures ReadFields(FieldsString(fields) + (")" + u)) == Found(fields, u)
  {
    FieldsUnfold(fields, u);
    hide Quoted, TypeString, FieldsString, ReadName, ReadType, ReadFields;
    var f := fields[0];
    if |fields| == 1 {
      var typed := TypeString(f.fieldType) + (")" + u);
      NameRead(f.name, ":" + typed);
      LastField(Quoted(f.name) + (":" + typed), f, typed, u);
      assert fields == [f];
    } else {
      var more := FieldsString(fields[1..]) + (")" + u);
      var typed := TypeString(f.fieldType) + ("," + more);
      NameRead(f.name, ":" + typed);
      OneMoreField(Quoted(f.name) + (":" + typed), f, typed, more);
      assert fields == [f] + fields[1..];
    }
  }

  lemma {:induction false} LastField(s: string, f: Field, typed: string, u: string)
    requires ReadName(s) == Found(f.name, ":" + typed) && ReadType(typed) == Found(f.fieldType, ")" + u)
    ensures ReadFields(s) == Found([f], u)
  {
    hide ReadName, ReadType;
    WordRead(":", typed);
    assert (")" + u)[1..] == u;
  }

  lemma {:induction false} OneMoreField(s: string, f: Field, typed: string, more: string)
    requires ReadName(s) == Found(f.name, ":" + typed) && ReadType(typed) == Found(f.fieldType, "," + more)
    ensures ReadFields(s) == match ReadFields(more) case Found(fs, u) => Found([f] + fs, u) case NotFound => NotFound
  {
    hide ReadName, ReadType;
    WordRead(":", typed);
    WordRead(",", more);
  }

  lemma {:induction false} FieldsUnfold(fields: seq<Field>, u: string)
    requires fields != []
    ensures var after := if |fields| == 1 then ")" + u else "," + (FieldsString(fields[1..]) + (")" + u));
            FieldsString(fields) + (")" + u) == Quoted(fields[0].name) + (":" + (TypeString(fields[0].fieldType) + after))
  {
    hide Quoted, TypeString;
    var q, t := Quoted(fields[0].name), TypeString(fields[0].fieldType);
    if |fields| == 1 {
      assert FieldsString(fields) == q + ":" + t + "";
      hide FieldsString;
      RegroupField(q, t, "", u);
      assert "" + (")" + u) == ")" + u;
    } else {
      var more := FieldsString(fields[1..]);
      assert FieldsString(fields) == q + ":" + t + ("," + more);
      hide FieldsString;
      RegroupField(q, t, "," + more, u);
      assert ("," + more) + (")" + u) == "," + (more + (")" + u));
    }
  }

  lemma {:induction false} RegroupField(q: string, t: string, more: string, u: string)
    ensures q + ":" + t + more + (")" + u) == q + (":" + (t + (more + (")" + u))))
  {
  }

  /** Texts that agree up to anything printed after them are of the same type. */
  lemma {:induction false} TypeStringDelimited(x: AbiType, y: AbiType, u: string, v: string)
    requires TypeString(x) + u == TypeString(y) + v
    ensures x == y && u == v
  {
    TypeRead(x, u);
    TypeRead(y, v);
  }
}
