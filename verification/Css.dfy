/** `cssEscape`: writing any string as a CSS identifier, after "serialize an identifier" of
    CSSOM, and reading it back as section 4.3.7 of CSS Syntax Module Level 3 says. */
module Css {
  /** A UTF-16 code unit. */
  type Unit = x: int | 0 <= x < 0x10000

  const REPLACEMENT: Unit := 0xFFFD
  const BACKSLASH: Unit := 0x5C
  const SPACE: Unit := 0x20
  const HYPHEN: Unit := 0x2D

  predicate IsDigit(c: Unit) { 0x30 <= c <= 0x39 }
  predicate IsControl(c: Unit) { 1 <= c <= 0x1F || c == 0x7F }
  predicate IsNewline(c: Unit) { c == 0x0A || c == 0x0C || c == 0x0D }
  predicate IsWhitespace(c: Unit) { IsNewline(c) || c == 0x09 || c == SPACE }
  predicate IsHexDigit(c: Unit) { IsDigit(c) || 0x41 <= c <= 0x46 || 0x61 <= c <= 0x66 }

  /** A name-start code point: a letter, an underscore, or anything beyond ASCII. */
  predicate IsIdentStart(c: Unit) { c >= 0x80 || c == 0x5F || 0x41 <= c <= 0x5A || 0x61 <= c <= 0x7A }
  predicate IsIdentChar(c: Unit) { IsIdentStart(c) || IsDigit(c) || c == HYPHEN }

  // ---- Escaping --------------------------------------------------------------------

  function HexUnit(d: int): Unit
    requires 0 <= d < 16
  {
    if d < 10 then 0x30 + d else 0x61 + d - 10
  }

  /** `codeUnit.toString(16)` for the code units that are escaped this way. */
  function ToHex(c: Unit): seq<Unit>
    requires c < 0x80
  {
    if c < 16 then [HexUnit(c)] else [HexUnit(c / 16), HexUnit(c % 16)]
  }

  /** Controls, and digits where an identifier may not have one. */
  predicate NeedsCodePoint(s: seq<Unit>, i: nat)
    requires i < |s|
  {
    IsControl(s[i]) || (IsDigit(s[i]) && (i == 0 || (i == 1 && s[0] == HYPHEN)))
  }

  function EscapeAt(s: seq<Unit>, i: nat): seq<Unit>
    requires i < |s|
  {
    var c := s[i];
    if c == 0 then [REPLACEMENT]
    else if NeedsCodePoint(s, i) then [BACKSLASH] + ToHex(c) + [SPACE]
    else if i == 0 && |s| == 1 && c == HYPHEN then [BACKSLASH, c]
    else if IsIdentChar(c) then [c]
    else [BACKSLASH, c]
  }

  function EscapeFrom(s: seq<Unit>, i: nat): seq<Unit>
    requires i <= |s|
    decreases |s| - i
  {
    if i == |s| then [] else EscapeAt(s, i) + EscapeFrom(s, i + 1)
  }

  function Escape(s: seq<Unit>): seq<Unit> {
    EscapeFrom(s, 0)
  }

  lemma EscapeNext(before: seq<Unit>, s: seq<Unit>, i: nat)
    requires i < |s|
    ensures before + EscapeFrom(s, i) == before + EscapeAt(s, i) + EscapeFrom(s, i + 1)
  {
  }

  /** The body of the loop: what the code unit at `index` adds to the result. */
  method EscapeUnit(value: seq<Unit>, index: nat) returns (piece: seq<Unit>)
    requires index < |value|
    ensures piece == EscapeAt(value, index)
  {
    hide ToHex;
    var codeUnit := value[index];
    if codeUnit == 0x0000 {
      piece := [REPLACEMENT];
    } else if (codeUnit >= 0x0001 && codeUnit <= 0x001F) || codeUnit == 0x007F ||
              (index == 0 && codeUnit >= 0x0030 && codeUnit <= 0x0039) ||
              (index == 1 && codeUnit >= 0x0030 && codeUnit <= 0x0039 && value[0] == 0x002D) {
      piece := [BACKSLASH] + ToHex(codeUnit) + [SPACE];
    } else if index == 0 && |value| == 1 && codeUnit == 0x002D {
      piece := [BACKSLASH, codeUnit];
    } else if codeUnit >= 0x0080 || codeUnit == 0x002D || codeUnit == 0x005F ||
              (codeUnit >= 0x0030 && codeUnit <= 0x0039) ||
              (codeUnit >= 0x0041 && codeUnit <= 0x005A) ||
              (codeUnit >= 0x0061 && codeUnit <= 0x007A) {
      piece := [codeUnit];
    } else {
      piece := [BACKSLASH, codeUnit];
    }
  }

  method CssEscape(value: seq<Unit>) returns (result: seq<Unit>)
    ensures result == Escape(value)
  {
    result := [];
    var index := 0;
    while index < |value|
      invariant index <= |value| && result + EscapeFrom(value, index) == Escape(value)
    {
      var piece := EscapeUnit(value, index);
      EscapeNext(result, value, index);
      result := result + piece;
      index := index + 1;
    }
    assert result + [] == result;
  }

  // ---- Reading identifiers ---------------------------------------------------------

  function HexValue(c: Unit): int
    requires IsHexDigit(c)
  {
    if IsDigit(c) then c - 0x30 else if c < 0x60 then c - 0x41 + 10 else c - 0x61 + 10
  }

  /** How many hex digits, at most `most`, the text starts with. */
  function HexRun(t: seq<Unit>, most: nat): (n: nat)
    ensures n <= |t| && n <= most && forall i :: 0 <= i < n ==> IsHexDigit(t[i])
  {
    if most == 0 || t == [] || !IsHexDigit(t[0]) then 0 else 1 + HexRun(t[1..], most - 1)
  }

  function HexNumber(t: seq<Unit>): nat
    requires forall i :: 0 <= i < |t| ==> IsHexDigit(t[i])
  {
    if t == [] then 0 else HexNumber(t[..|t| - 1]) * 16 + HexValue(t[|t| - 1])
  }

  /** A code point as code units; zero, surrogates and numbers out of range become U+FFFD. */
  function UnitsOf(v: nat): seq<Unit> {
    if v == 0 || 0xD800 <= v <= 0xDFFF || v > 0x10FFFF then [REPLACEMENT]
    else if v < 0x10000 then [v]
    else [0xD800 + (v - 0x10000) / 0x400, 0xDC00 + (v - 0x10000) % 0x400]
  }

  datatype Consumed = Consumed(units: seq<Unit>, rest: seq<Unit>)

  /** Consume an escaped code point; `t` is what follows the backslash. */
  function ConsumeEscape(t: seq<Unit>): (r: Consumed)
    ensures |r.rest| <= |t|
  {
    if t == [] then Consumed([REPLACEMENT], [])
    else if IsHexDigit(t[0]) then
      var n := HexRun(t, 6);
      var rest := if n < |t| && IsWhitespace(t[n]) then t[n + 1..] else t[n..];
      Consumed(UnitsOf(HexNumber(t[..n])), rest)
    else Consumed([t[0]], t[1..])
  }

  predicate StartsEscape(t: seq<Unit>) {
    |t| > 0 && t[0] == BACKSLASH && (|t| == 1 || !IsNewline(t[1]))
  }

  /** The characters that an identifier's text stands for. */
  function Decode(t: seq<Unit>): seq<Unit>
    decreases |t|
  {
    if t == [] then []
    else if StartsEscape(t) then
      var r := ConsumeEscape(t[1..]);
      r.units + Decode(r.rest)
    else [t[0]] + Decode(t[1..])
  }

  /** Every character is an identifier character or part of an escape. */
  predicate WellEscaped(t: seq<Unit>)
    decreases |t|
  {
    t == [] ||
    if StartsEscape(t) then WellEscaped(ConsumeEscape(t[1..]).rest)
    else IsIdentChar(t[0]) && WellEscaped(t[1..])
  }

  /** "Check if three code points would start an identifier". */
  predicate StartsIdentifier(t: seq<Unit>) {
    |t| > 0 &&
    if t[0] == HYPHEN then |t| > 1 && (IsIdentStart(t[1]) || t[1] == HYPHEN || StartsEscape(t[1..]))
    else IsIdentStart(t[0]) || StartsEscape(t)
  }

  // ---- The two are inverse ---------------------------------------------------------

  /** The only loss: U+0000 becomes U+FFFD. */
  function Sanitised(s: seq<Unit>, i: nat): seq<Unit>
    requires i <= |s|
    decreases |s| - i
  {
    if i == |s| then [] else [if s[i] == 0 then REPLACEMENT else s[i]] + Sanitised(s, i + 1)
  }

  lemma HexEscapeRead(c: Unit, t: seq<Unit>)
    requires 0 < c < 0x80
    ensures var u := ToHex(c) + [SPACE] + t;
            ConsumeEscape(u) == Consumed([c], t) && !IsNewline(u[0])
  {
    var h := ToHex(c);
    var u := h + [SPACE] + t;
    HexRunOf(h, t);
    assert u[..|h|] == h;
    if |h| == 1 {
      assert h[..0] == [];
    } else {
      assert h[..1] == [h[0]];
      assert h[..1][..0] == [];
      assert HexNumber(h[..1]) == HexValue(h[0]);
    }
    assert HexNumber(h) == c;
    assert u[|h| + 1..] == t;
  }

  lemma HexRunOf(h: seq<Unit>, t: seq<Unit>)
    requires 1 <= |h| <= 2 && forall i :: 0 <= i < |h| ==> IsHexDigit(h[i])
    ensures HexRun(h + [SPACE] + t, 6) == |h|
  {
    var u := h + [SPACE] + t;
    assert u[|h|] == SPACE && !IsHexDigit(u[|h|]);
    assert u[0] == h[0];
    if |h| == 2 {
      assert u[1] == h[1];
      assert u[1..][0] == u[1] && u[1..][1..][0] == u[2];
      assert HexRun(u[1..][1..], 4) == 0;
      assert HexRun(u[1..], 5) == 1;
    } else {
      assert u[1..][0] == u[1];
      assert HexRun(u[1..], 5) == 0;
    }
  }

  lemma CodePointRead(c: Unit, t: seq<Unit>)
    requires 0 < c < 0x80
    ensures var u := [BACKSLASH] + ToHex(c) + [SPACE] + t;
            Decode(u) == [c] + Decode(t) && (WellEscaped(t) ==> WellEscaped(u))
  {
    var u := [BACKSLASH] + ToHex(c) + [SPACE] + t;
    HexEscapeRead(c, t);
    hide ToHex, ConsumeEscape;
    assert u[1..] == ToHex(c) + [SPACE] + t;
    assert StartsEscape(u);
  }

  lemma CharEscapeRead(c: Unit, t: seq<Unit>)
    requires !IsHexDigit(c) && !IsNewline(c)
    ensures var u := [BACKSLASH, c] + t;
            Decode(u) == [c] + Decode(t) && (WellEscaped(t) ==> WellEscaped(u))
  {
    var u := [BACKSLASH, c] + t;
    assert u[1..] == [c] + t && ([c] + t)[1..] == t;
    assert StartsEscape(u) && ConsumeEscape(u[1..]) == Consumed([c], t);
  }

  lemma PlainRead(c: Unit, t: seq<Unit>)
    requires IsIdentChar(c)
    ensures Decode([c] + t) == [c] + Decode(t) && (WellEscaped(t) ==> WellEscaped([c] + t))
  {
    assert ([c] + t)[1..] == t && !StartsEscape([c] + t);
  }

  /** One character's text is read back as that character, whatever follows. */
  lemma PieceRead(s: seq<Unit>, i: nat, t: seq<Unit>)
    requires i < |s|
    ensures Decode(EscapeAt(s, i) + t) == [if s[i] == 0 then REPLACEMENT else s[i]] + Decode(t)
    ensures WellEscaped(t) ==> WellEscaped(EscapeAt(s, i) + t)
  {
    hide Decode, WellEscaped, ToHex;
    var c, e := s[i], EscapeAt(s, i);
    if c == 0 {
      PlainRead(REPLACEMENT, t);
    } else if NeedsCodePoint(s, i) {
      CodePointRead(c, t);
    } else if e == [BACKSLASH, c] {
      CharEscapeRead(c, t);
    } else {
      PlainRead(c, t);
    }
  }

  lemma {:induction false} ReadBackFrom(s: seq<Unit>, i: nat)
    requires i <= |s|
    ensures Decode(EscapeFrom(s, i)) == Sanitised(s, i) && WellEscaped(EscapeFrom(s, i))
    decreases |s| - i
  {
    if i < |s| {
      ReadBackFrom(s, i + 1);
      PieceRead(s, i, EscapeFrom(s, i + 1));
    }
  }

  lemma {:induction false} SanitisedSame(s: seq<Unit>, i: nat)
    requires i <= |s|
    ensures Sanitised(s, i) == s[i..] <==> forall k :: i <= k < |s| ==> s[k] != 0
    decreases |s| - i
  {
    if i < |s| {
      SanitisedSame(s, i + 1);
      assert s[i..] == [s[i]] + s[i + 1..];
      assert Sanitised(s, i)[0] == s[i..][0] <==> s[i] != 0;
      assert Sanitised(s, i)[1..] == Sanitised(s, i + 1) && s[i..][1..] == s[i + 1..];
    }
  }

  /** Reading an escaped string returns it exactly when it has no U+0000, and otherwise the
      string with U+FFFD in its place. */
  lemma EscapeRoundTrip(s: seq<Unit>)
    ensures Decode(Escape(s)) == Sanitised(s, 0)
    ensures Decode(Escape(s)) == s <==> 0 !in s
    ensures WellEscaped(Escape(s))
  {
    ReadBackFrom(s, 0);
    SanitisedSame(s, 0);
    assert s[0..] == s;
  }

  /** A non-empty string's text starts an identifier, so the whole of it is one. */
  lemma EscapeStartsIdentifier(s: seq<Unit>)
    requires s != []
    ensures StartsIdentifier(Escape(s))
  {
    var e := EscapeAt(s, 0);
    assert Escape(s) == e + EscapeFrom(s, 1);
    if s[0] == HYPHEN && |s| > 1 {
      assert EscapeFrom(s, 1) == EscapeAt(s, 1) + EscapeFrom(s, 2);
      assert Escape(s)[1..] == EscapeAt(s, 1) + EscapeFrom(s, 2);
    }
  }

  /** The string of a single U+0000 comes back as U+FFFD. */
  lemma NullIsReplaced()
    ensures Escape([0]) == [REPLACEMENT] && Decode(Escape([0])) == [REPLACEMENT] && Decode(Escape([0])) != [0]
  {
    var s := [0];
    assert EscapeFrom(s, 1) == [];
    assert Escape(s) == [REPLACEMENT];
    assert [REPLACEMENT][1..] == [];
  }

  /** A digit where an identifier may not have one. */
  predicate LeadingDigit(s: seq<Unit>, i: nat)
    requires i < |s|
  {
    0x30 <= s[i] <= 0x39 && (i == 0 || (i == 1 && s[0] == 0x2D))
  }

  /** Nothing is escaped needlessly, and each kind of escape is used where it is due: a code unit
      stands for itself exactly if it is a letter, a digit, a hyphen, an underscore or beyond
      ASCII, and is no leading digit and no lone hyphen; controls and leading digits are written
      by their number, everything else after a backslash. */
  lemma EscapedExactlyWhen(s: seq<Unit>, i: nat)
    requires i < |s|
    ensures var c := s[i];
            var stands := (c >= 0x80 || c == 0x2D || c == 0x5F || 0x30 <= c <= 0x39 || 0x41 <= c <= 0x5A || 0x61 <= c <= 0x7A) &&
                          !LeadingDigit(s, i) && !(|s| == 1 && c == 0x2D);
            && (EscapeAt(s, i) == [c] <==> stands)
            && (c == 0 ==> EscapeAt(s, i) == [0xFFFD])
            && (1 <= c <= 0x1F || c == 0x7F || LeadingDigit(s, i) ==>
                  |EscapeAt(s, i)| >= 3 && EscapeAt(s, i)[0] == 0x5C && EscapeAt(s, i)[|EscapeAt(s, i)| - 1] == 0x20)
            && (0x20 <= c < 0x7F && !stands && !LeadingDigit(s, i) ==> EscapeAt(s, i) == [0x5C, c])
  {
  }
}
