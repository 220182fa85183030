// Printing and parsing numbers (user/external/sloplib/compat_stdio.c, compat_stdlib.c).

module Print {
  import opened Bytes

  const LONG_MAX := 0x7FFF_FFFF
  const INT_MIN := -0x8000_0000

  // ---- decimal digits ------------------------------------------------------

  predicate IsDigit(c: char) {
    '0' <= c <= '9'
  }

  predicate AllDigits(s: string) {
    forall i :: 0 <= i < |s| ==> IsDigit(s[i])
  }

  function Digit(n: nat): (c: char)
    requires n < 10
    ensures IsDigit(c) && c as int - '0' as int == n
  {
    '0' + n as char
  }

  /** The decimal digits of a number, without leading zeros. */
  function Decimal(n: nat): (s: string)
    ensures s != [] && AllDigits(s)
  {
    if n < 10 then [Digit(n)] else Decimal(n / 10) + [Digit(n % 10)]
  }

  function Signed32(n: int): (s: string)
    ensures s != []
  {
    if n < 0 then "-" + Decimal(-n) else Decimal(n)
  }

  // ---- formatting ----------------------------------------------------------

  datatype Arg = Text(s: Option<string>) | Int(n: int) | Unsigned(u: U32) | Char(c: char)

  /** What one conversion prints, what it takes, and what is left of the format. */
  datatype Piece = Piece(out: string, takes: nat, rest: string)

  predicate Conversion(c: char) {
    c == 's' || c == 'd' || c == 'u' || c == 'c'
  }

  predicate ArgFits(c: char, args: seq<Arg>) {
    && args != []
    && (if c == 's' then args[0].Text? else if c == 'd' then args[0].Int? && INT_MIN <= args[0].n <= LONG_MAX
        else if c == 'u' then args[0].Unsigned? else args[0].Char?)
  }

  function ArgText(a: Arg): string {
    match a
    case Text(None) => "(null)"
    case Text(Some(s)) => s
    case Int(n) => Signed32(n)
    case Unsigned(u) => Decimal(u)
    case Char(c) => [c]
  }

  /** The arguments the format asks for, in order; anything else is undefined in C. */
  predicate Typed(fmt: string, args: seq<Arg>)
    decreases |fmt|
  {
    if fmt == [] then true
    else if fmt[0] != '%' || |fmt| == 1 then Typed(fmt[1..], args)
    else if fmt[1] == 'l' && |fmt| > 2 && fmt[2] == 'u' then
      args != [] && args[0].Unsigned? && Typed(fmt[3..], args[1..])
    else if Conversion(fmt[1]) then ArgFits(fmt[1], args) && Typed(fmt[2..], args[1..])
    else Typed(fmt[2..], args)
  }

  /** The whole rendering. */
  function Render(fmt: string, args: seq<Arg>): (out: string)
    requires Typed(fmt, args)
    decreases |fmt|
  {
    if fmt == [] then ""
    else if fmt[0] != '%' then [fmt[0]] + Render(fmt[1..], args)
    else if |fmt| == 1 then "%"
    else if fmt[1] == '%' then "%" + Render(fmt[2..], args)
    else if fmt[1] == 'l' && |fmt| > 2 && fmt[2] == 'u' then ArgText(args[0]) + Render(fmt[3..], args[1..])
    else if Conversion(fmt[1]) then ArgText(args[0]) + Render(fmt[2..], args[1..])
    else "%" + [fmt[1]] + Render(fmt[2..], args)
  }

  /** A part of a format as its author means it. */
  datatype Part =
    | Plain(text: string)
    | Percent
    | Str(s: Option<string>)
    | Dec(n: int)
    | Uns(u: U32, long: bool)
    | Chr(c: char)
  {
    predicate Ok() {
      (Plain? ==> '%' !in text) && (Dec? ==> INT_MIN <= n <= LONG_MAX)
    }
    function Spec(): string {
      match this
      case Plain(text) => text
      case Percent => "%%"
      case Str(_) => "%s"
      case Dec(_) => "%d"
      case Uns(_, long) => if long then "%lu" else "%u"
      case Chr(_) => "%c"
    }
    function Args(): seq<Arg> {
      match this
      case Str(s) => [Text(s)]
      case Dec(n) => [Int(n)]
      case Uns(u, _) => [Unsigned(u)]
      case Chr(c) => [Char(c)]
      case _ => []
    }
    /** What it stands for; the numbers in decimal, which `Strtol` reads back. */
    function Meaning(): string {
      match this
      case Plain(text) => text
      case Percent => "%"
      case Str(s) => if s.Some? then s.value else "(null)"
      case Dec(n) => if n < 0 then "-" + Decimal(-n) else Decimal(n)
      case Uns(u, _) => Decimal(u)
      case Chr(c) => [c]
    }
  }

  function Format(parts: seq<Part>): string {
    if parts == [] then "" else parts[0].Spec() + Format(parts[1..])
  }

  function AllArgs(parts: seq<Part>): seq<Arg> {
    if parts == [] then [] else parts[0].Args() + AllArgs(parts[1..])
  }

  function Meanings(parts: seq<Part>): string {
    if parts == [] then "" else parts[0].Meaning() + Meanings(parts[1..])
  }

  /** Every format made of such parts is rendered as what they stand for, one after the other. */
  lemma {:induction false} RendersParts(parts: seq<Part>)
    requires forall i :: 0 <= i < |parts| ==> parts[i].Ok()
    ensures Typed(Format(parts), AllArgs(parts)) && Render(Format(parts), AllArgs(parts)) == Meanings(parts)
    decreases |parts|
  {
    if parts != [] {
      RendersParts(parts[1..]);
      PartRendered(parts[0], Format(parts[1..]), AllArgs(parts[1..]));
    }
  }

  lemma PartRendered(p: Part, fmt: string, args: seq<Arg>)
    requires p.Ok() && Typed(fmt, args)
    ensures Typed(p.Spec() + fmt, p.Args() + args)
    ensures Render(p.Spec() + fmt, p.Args() + args) == p.Meaning() + Render(fmt, args)
  {
    if p.Plain? {
      PlainRendered(p.text, fmt, args);
      assert [] + args == args;
    } else {
      var f, a := p.Spec() + fmt, p.Args() + args;
      assert f[0] == '%' && f[1] == p.Spec()[1];
      assert f[|p.Spec()|..] == fmt && (|p.Args()| == 0 ==> a == args) && (|p.Args()| == 1 ==> a[1..] == args);
    }
  }

  lemma {:induction false} PlainRendered(text: string, fmt: string, args: seq<Arg>)
    requires '%' !in text && Typed(fmt, args)
    ensures Typed(text + fmt, args) && Render(text + fmt, args) == text + Render(fmt, args)
    decreases |text|
  {
    if text == "" {
      assert text + fmt == fmt && text + Render(fmt, args) == Render(fmt, args);
    } else {
      PlainRendered(text[1..], fmt, args);
      assert (text + fmt)[1..] == text[1..] + fmt && (text + fmt)[0] == text[0];
      assert [text[0]] + (text[1..] + Render(fmt, args)) == text + Render(fmt, args);
    }
  }

  /** What the buffer holds when `out` has been appended: as much of it as leaves room for the terminator. */
  predicate Holds(buf: array<char>, size: nat, out: string)
    requires 0 < size <= buf.Length
    reads buf
  {
    var n := if |out| < size then |out| else size - 1;
    buf[..n] == out[..n]
  }

  method AppendChar(buf: array<char>, size: nat, off: nat, c: char, ghost out: string) returns (r: nat)
    requires 0 < size <= buf.Length && off == |out| && Holds(buf, size, out)
    modifies buf
    ensures r == off + 1 && Holds(buf, size, out + [c])
    ensures buf[size..] == old(buf[size..])
  {
    if off + 1 < size {
      assert buf[..off] == out[..off] == out;
      buf[off] := c;
      assert buf[..off + 1] == out + [c];
    } else {
      assert (out + [c])[..size - 1] == out[..size - 1];
    }
    r := off + 1;
  }

  method AppendText(buf: array<char>, size: nat, off: nat, s: string, ghost out: string) returns (r: nat)
    requires 0 < size <= buf.Length && off == |out| && Holds(buf, size, out)
    modifies buf
    ensures r == off + |s| && Holds(buf, size, out + s)
    ensures buf[size..] == old(buf[size..])
  {
    r := off;
    var j := 0;
    assert out + s[..0] == out;
    while j < |s|
      invariant j <= |s| && r == off + j && Holds(buf, size, out + s[..j])
      invariant buf[size..] == old(buf[size..])
    {
      r := AppendChar(buf, size, r, s[j], out + s[..j]);
      assert out + s[..j] + [s[j]] == out + s[..j + 1];
      j := j + 1;
    }
    assert s[..j] == s;
  }

  /** The digit loop, least significant first; ten digits are enough, so its buffer of sixteen never fills. */
  method DigitLoop(value: U32) returns (tmp: string, ghost text: string)
    requires value > 0
    ensures text == Decimal(value) && |text| == |tmp| <= 10
    ensures forall i :: 0 <= i < |tmp| ==> text[|tmp| - 1 - i] == tmp[i]
  {
    var v := value;
    tmp, text := [], "";
    assert Decimal(value) + text == Decimal(value) && Power10(10) == 10_000_000_000;
    while v > 0 && |tmp| < 16
      invariant |text| == |tmp| <= 10 && (forall i :: 0 <= i < |tmp| ==> text[|tmp| - 1 - i] == tmp[i])
      invariant if v > 0 then Decimal(v) + text == Decimal(value) else text == Decimal(value)
      invariant v < Power10(10 - |tmp|)
      decreases v
    {
      var d := Digit(v % 10);
      PowerStep(v, |text|);
      DigitStep(v, text, Decimal(value));
      text := [d] + text;
      tmp := tmp + [d];
      v := v / 10;
    }
  }

  lemma DigitStep(v: nat, text: string, whole: string)
    requires 0 < v && Decimal(v) + text == whole
    ensures if v / 10 > 0 then Decimal(v / 10) + ([Digit(v % 10)] + text) == whole else [Digit(v % 10)] + text == whole
  {
    if v / 10 > 0 {
      assert Decimal(v / 10) + [Digit(v % 10)] + text == Decimal(v / 10) + ([Digit(v % 10)] + text);
    }
  }

  lemma PowerStep(v: nat, k: nat)
    requires k <= 10 && 0 < v < Power10(10 - k)
    ensures k < 10 && v / 10 < Power10(10 - (k + 1))
  {
    if k < 10 {
      var n: nat := 10 - (k + 1);
      assert Power10(n + 1) == 10 * Power10(n);
    }
  }

  method AppendU32(buf: array<char>, size: nat, off: nat, value: U32, ghost out: string) returns (r: nat)
    requires 0 < size <= buf.Length && off == |out| && Holds(buf, size, out)
    modifies buf
    ensures r == off + |Decimal(value)| && Holds(buf, size, out + Decimal(value))
    ensures buf[size..] == old(buf[size..])
  {
    if value == 0 {
      r := AppendChar(buf, size, off, '0', out);
      return;
    }
    var tmp, text := DigitLoop(value);
    r := off;
    var n: nat := |tmp|;
    assert out + text[..0] == out;
    while n > 0
      invariant n <= |tmp| && r == off + (|tmp| - n)
      invariant Holds(buf, size, out + text[..|tmp| - n])
      invariant buf[size..] == old(buf[size..])
    {
      n := n - 1;
      ghost var k := |tmp| - 1 - n;
      r := AppendChar(buf, size, r, tmp[n], out + text[..k]);
      assert text[k] == tmp[n];
      assert out + text[..k] + [tmp[n]] == out + text[..k + 1];
    }
    assert text[..|tmp|] == text;
  }

  /** The magnitude is computed so that the least integer does not overflow. */
  method AppendS32(buf: array<char>, size: nat, off: nat, value: int, ghost out: string) returns (r: nat)
    requires 0 < size <= buf.Length && off == |out| && Holds(buf, size, out) && INT_MIN <= value <= LONG_MAX
    modifies buf
    ensures r == off + |Signed32(value)| && Holds(buf, size, out + Signed32(value))
    ensures buf[size..] == old(buf[size..])
  {
    r := off;
    ghost var sofar := out;
    var mag: U32;
    if value < 0 {
      r := AppendChar(buf, size, r, '-', out);
      sofar := out + ['-'];
      mag := -(value + 1) + 1;
    } else {
      mag := value;
    }
    r := AppendU32(buf, size, r, mag, sofar);
    assert value < 0 ==> out + ['-'] + Decimal(mag) == out + ("-" + Decimal(mag));
  }

  function Power10(n: nat): nat {
    if n == 0 then 1 else 10 * Power10(n - 1)
  }

  /** One conversion or character of the format, from position `i`. */
  method FormatOne(buf: array<char>, size: nat, off: nat, fmt: string, args: seq<Arg>, ghost out: string)
    returns (r: nat, rest: string, left: seq<Arg>)
    requires 0 < size <= buf.Length && off == |out| && Holds(buf, size, out) && fmt != [] && Typed(fmt, args)
    modifies buf
    ensures |rest| < |fmt| && Typed(rest, left)
    ensures |Render(rest, left)| <= |Render(fmt, args)|
    ensures var piece := Render(fmt, args)[..|Render(fmt, args)| - |Render(rest, left)|];
            && Render(fmt, args) == piece + Render(rest, left)
            && r == off + |piece| && Holds(buf, size, out + piece)
    ensures buf[size..] == old(buf[size..])
  {
    ghost var piece;
    r, left := off, args;
    if fmt[0] != '%' {
      rest, piece := fmt[1..], [fmt[0]];
      r := AppendChar(buf, size, r, fmt[0], out);
    } else if |fmt| > 1 && fmt[1] == '%' {
      rest, piece := fmt[2..], "%";
      r := AppendChar(buf, size, r, '%', out);
    } else if |fmt| > 2 && fmt[1] == 'l' && fmt[2] == 'u' {
      rest, left, piece := fmt[3..], args[1..], ArgText(args[0]);
      r := AppendU32(buf, size, r, args[0].u, out);
    } else if |fmt| > 1 && Conversion(fmt[1]) {
      rest, left, piece := fmt[2..], args[1..], ArgText(args[0]);
      if fmt[1] == 's' {
        var s := if args[0].s == None then "(null)" else args[0].s.value;
        r := AppendText(buf, size, r, s, out);
      } else if fmt[1] == 'd' {
        r := AppendS32(buf, size, r, args[0].n, out);
      } else if fmt[1] == 'u' {
        r := AppendU32(buf, size, r, args[0].u, out);
      } else {
        r := AppendChar(buf, size, r, args[0].c, out);
      }
    } else {
      r := AppendChar(buf, size, r, '%', out);
      if |fmt| > 1 {
        rest, piece := fmt[2..], "%" + [fmt[1]];
        r := AppendChar(buf, size, r, fmt[1], out + ['%']);
        assert out + ['%'] + [fmt[1]] == out + piece;
      } else {
        rest, piece := fmt[1..], "%";
      }
    }
    assert Render(fmt, args) == piece + Render(rest, left);
    assert Render(fmt, args)[..|piece|] == piece;
  }

  /** What is left in the buffer: the longest prefix that fits, and its terminator. */
  predicate Printed(buf: array<char>, size: nat, out: string)
    requires 0 < size <= buf.Length
    reads buf
  {
    var n := if |out| < size then |out| else size - 1;
    buf[..n] == out[..n] && buf[n] == '\0'
  }

  lemma RenderNothing(args: seq<Arg>)
    ensures Typed([], args) && Render([], args) == ""
  {
  }

  lemma Rebracket(out: string, piece: string, more: string, whole: string)
    requires out + (piece + more) == whole
    ensures (out + piece) + more == whole
  {
    assert out + (piece + more) == (out + piece) + more;
  }

  /** The loop over the format. */
  method FormatLoop(buf: array<char>, size: nat, fmt: string, args: seq<Arg>) returns (off: nat)
    requires 0 < size <= buf.Length && Typed(fmt, args)
    modifies buf
    ensures off == |Render(fmt, args)| && Holds(buf, size, Render(fmt, args))
    ensures buf[size..] == old(buf[size..])
  {
    var f, left := fmt, args;
    off := 0;
    ghost var out, whole := "", Render(fmt, args);
    assert out + Render(f, left) == whole;
    hide Render, Typed;
    while f != []
      invariant Typed(f, left) && off == |out| && Holds(buf, size, out) && out + Render(f, left) == whole
      invariant buf[size..] == old(buf[size..])
      decreases |f|
    {
      ghost var now := Render(f, left);
      var f', left';
      off, f', left' := FormatOne(buf, size, off, f, left, out);
      ghost var more := Render(f', left');
      ghost var piece := now[..|now| - |more|];
      Rebracket(out, piece, more, whole);
      out, f, left := out + piece, f', left';
    }
    RenderNothing(left);
    assert out + [] == out;
  }

  /**
   * `vsnprintf`: for every size the buffer gets exactly the longest prefix of the whole rendering that leaves room
   * for a terminator, and the terminator, and nothing past the size; the result is the whole length.
   */
  method Vsnprintf(buf: array<char>, size: nat, fmt: string, args: seq<Arg>) returns (r: int)
    requires size <= buf.Length && Typed(fmt, args) && |Render(fmt, args)| <= LONG_MAX
    modifies buf
    ensures size == 0 ==> r == -1 && buf[..] == old(buf[..])
    ensures size > 0 ==> r == |Render(fmt, args)| && Printed(buf, size, Render(fmt, args))
    ensures buf[size..] == old(buf[size..])
  {
    if size == 0 {
      return -1;
    }
    hide Render, Typed;
    ghost var out := Render(fmt, args);
    var off := FormatLoop(buf, size, fmt, args);
    ghost var kept := buf[size..];
    var n := if off < size then off else size - 1;
    assert buf[..n] == out[..n];
    buf[n] := '\0';
    assert buf[size..] == kept && buf[..n] == out[..n];
    r := off;
  }

  // ---- parsing -------------------------------------------------------------

  datatype Errno = NoError | EInval | ERange

  predicate Space(c: char) {
    c == ' ' || c == '\t' || c == '\n' || c == '\r'
  }

  /** The first position from `p` on that is no space. */
  function SpacesEnd(s: string, p: nat): (e: nat)
    requires p <= |s|
    ensures p <= e <= |s| && (e < |s| ==> !Space(s[e])) && forall i :: p <= i < e ==> Space(s[i])
    decreases |s| - p
  {
    if p < |s| && Space(s[p]) then SpacesEnd(s, p + 1) else p
  }

  /** The first position from `p` on that is no digit. */
  function DigitsEnd(s: string, p: nat): (e: nat)
    requires p <= |s|
    ensures p <= e <= |s| && (e < |s| ==> !IsDigit(s[e])) && forall i :: p <= i < e ==> IsDigit(s[i])
    decreases |s| - p
  {
    if p < |s| && IsDigit(s[p]) then DigitsEnd(s, p + 1) else p
  }

  predicate DigitsIn(s: string, a: int, b: int) {
    0 <= a <= b <= |s| && forall i :: a <= i < b ==> IsDigit(s[i])
  }

  /** The number the digits from `a` to `b` stand for. */
  function ValueIn(s: string, a: int, b: int): (n: nat)
    requires DigitsIn(s, a, b)
    decreases b
  {
    if a == b then 0 else 10 * ValueIn(s, a, b - 1) + (s[b - 1] as int - '0' as int)
  }

  lemma {:induction false} ValueGrows(s: string, a: int, b: int, c: int)
    requires DigitsIn(s, a, c) && a <= b <= c
    ensures ValueIn(s, a, b) <= ValueIn(s, a, c)
    decreases c
  {
    if b < c {
      ValueGrows(s, a, b, c - 1);
    }
  }

  /** A number, the error code, and how many characters were used. */
  datatype Parsed = Parsed(value: int, errno: Errno, end: nat)

  function Clamp(m: nat): (r: nat)
    ensures r <= LONG_MAX
  {
    if m > LONG_MAX then LONG_MAX else m
  }

  /** What `strtol` stands for: the number written, clamped to LONG_MAX in magnitude. */
  function Parse(s: string, base: int): (r: Parsed)
  {
    if base != 0 && base != 10 then Parsed(0, EInval, 0)
    else
      var i := SpacesEnd(s, 0);
      var signed := i < |s| && (s[i] == '+' || s[i] == '-');
      var j := if signed then i + 1 else i;
      var e := DigitsEnd(s, j);
      if e == j then Parsed(0, NoError, 0)
      else
        var m := ValueIn(s, j, e);
        Parsed(if signed && s[i] == '-' then -(Clamp(m) as int) else Clamp(m), if m > LONG_MAX then ERange else NoError, e)
  }

  /** The accumulation loop from position `from`, with its guard against overflow. */
  method NumberLoop(s: string, from: nat) returns (value: nat, errno: Errno, p: nat)
    requires from <= |s|
    ensures p == DigitsEnd(s, from) && value == Clamp(ValueIn(s, from, p))
    ensures errno == if ValueIn(s, from, p) > LONG_MAX then ERange else NoError
  {
    value, errno, p := 0, NoError, from;
    while p < |s| && IsDigit(s[p])
      invariant DigitsIn(s, from, p) && DigitsEnd(s, p) == DigitsEnd(s, from)
      invariant value == ValueIn(s, from, p) <= LONG_MAX
    {
      var digit := s[p] as int - '0' as int;
      if value > (LONG_MAX - digit) / 10 {
        ghost var k := p + 1;
        while p < |s| && IsDigit(s[p])
          invariant DigitsIn(s, from, p) && DigitsEnd(s, p) == DigitsEnd(s, from) && k - 1 <= p
        {
          p := p + 1;
        }
        assert ValueIn(s, from, k) > LONG_MAX;
        ValueGrows(s, from, k, p);
        return LONG_MAX, ERange, p;
      }
      value := value * 10 + digit;
      p := p + 1;
    }
  }

  /** `strtol`. */
  method Strtol(s: string, base: int) returns (r: Parsed)
    ensures r == Parse(s, base)
  {
    if base != 0 && base != 10 {
      return Parsed(0, EInval, 0);
    }
    var p: nat, neg := 0, false;
    while p < |s| && Space(s[p])
      invariant p <= |s| && SpacesEnd(s, p) == SpacesEnd(s, 0)
    {
      p := p + 1;
    }
    if p < |s| && (s[p] == '+' || s[p] == '-') {
      neg := s[p] == '-';
      p := p + 1;
    }
    var value, errno, end := NumberLoop(s, p);
    if end == p {
      return Parsed(0, NoError, 0);
    }
    var v: int := value;
    r := Parsed(if neg then -v else v, errno, end);
  }

  // ---- the round trip ------------------------------------------------------

  /** The digits printed, wherever they stand, are the number. */
  lemma {:induction false} DecimalValue(s: string, at: nat, n: nat)
    requires at + |Decimal(n)| <= |s| && forall i :: 0 <= i < |Decimal(n)| ==> s[at + i] == Decimal(n)[i]
    ensures DigitsIn(s, at, at + |Decimal(n)|) && ValueIn(s, at, at + |Decimal(n)|) == n
  {
    var d := Decimal(n);
    forall i | at <= i < at + |d| ensures IsDigit(s[i]) {
      assert s[at + (i - at)] == d[i - at];
    }
    if n >= 10 {
      var e := Decimal(n / 10);
      forall i | 0 <= i < |e| ensures s[at + i] == e[i] {
        assert s[at + i] == d[i];
      }
      DecimalValue(s, at, n / 10);
      assert s[at + |e|] == d[|e|] == Digit(n % 10);
    } else {
      assert s[at + 0] == d[0] && ValueIn(s, at, at) == 0;
    }
  }

  lemma {:induction false} DigitsEndIs(s: string, p: nat, e: nat)
    requires p <= e <= |s| && DigitsIn(s, p, e) && (e == |s| || !IsDigit(s[e]))
    ensures DigitsEnd(s, p) == e
    decreases e - p
  {
    if p < e {
      DigitsEndIs(s, p + 1, e);
    }
  }

  /** A number at the start, after a minus sign or not. */
  lemma ParseAt(s: string, base: int, j: nat, e: nat)
    requires (base == 0 || base == 10) && j < e <= |s| && DigitsIn(s, j, e) && (e == |s| || !IsDigit(s[e]))
    requires j == 0 || (j == 1 && s[0] == '-')
    ensures var m := ValueIn(s, j, e);
            Parse(s, base) == Parsed(if j == 0 then Clamp(m) else -(Clamp(m) as int),
                                     if m > LONG_MAX then ERange else NoError, e)
  {
    DigitsEndIs(s, j, e);
    assert IsDigit(s[j]) && SpacesEnd(s, 0) == 0;
    hide ValueIn, DigitsEnd, SpacesEnd;
  }

  /**
   * Parsing what `%d` prints gives the number back, whatever follows that is not a digit, for every int but the
   * least, which comes back as -LONG_MAX with ERANGE.
   */
  lemma DecimalRoundTrip(n: int, rest: string, base: int)
    requires INT_MIN <= n <= LONG_MAX && (rest == [] || !IsDigit(rest[0])) && (base == 0 || base == 10)
    ensures Parse(Signed32(n) + rest, base)
            == if n == INT_MIN then Parsed(-LONG_MAX, ERange, |Signed32(n)|) else Parsed(n, NoError, |Signed32(n)|)
  {
    var j, m := if n < 0 then 1 else 0, if n < 0 then -n else n;
    PrintedDigits(n, rest, j, m);
    hide ValueIn, DigitsIn, Parse, Signed32, IsDigit, Clamp;
    ParseAt(Signed32(n) + rest, base, j, |Signed32(n)|);
    ClampIs(m);
  }

  lemma ParseIs(s: string, base: int, i: nat, j: nat, e: nat, neg: bool)
    requires (base == 0 || base == 10) && SpacesEnd(s, 0) == i && j < e <= |s| && e == DigitsEnd(s, j)
    requires if j == i then !neg && s[i] != '+' && s[i] != '-' else j == i + 1 && s[i] == if neg then '-' else '+'
    ensures var m := ValueIn(s, j, e); var c: int := if m > LONG_MAX then LONG_MAX else m;
            Parse(s, base) == Parsed(if neg then -c else c, if m > LONG_MAX then ERange else NoError, e)
  {
    hide SpacesEnd, DigitsEnd, ValueIn;
  }

  lemma SignedNumber(spaces: string, sign: string, m: nat, rest: string)
    requires forall i :: 0 <= i < |spaces| ==> Space(spaces[i])
    requires (sign == "" || sign == "+" || sign == "-") && (rest == [] || !IsDigit(rest[0]))
    ensures var s, i, j := spaces + sign + Decimal(m) + rest, |spaces|, |spaces| + |sign|;
            var e := j + |Decimal(m)|;
            && SpacesEnd(s, 0) == i && j < e == DigitsEnd(s, j) && DigitsIn(s, j, e) && ValueIn(s, j, e) == m
            && if i == j then s[i] != '+' && s[i] != '-' else s[i] == sign[0]
  {
    var d := Decimal(m);
    hide Decimal, ValueIn, SpacesEnd, DigitsEnd;
    var s, i, j := spaces + sign + d + rest, |spaces|, |spaces| + |sign|;
    var e := j + |d|;
    forall k | 0 <= k < i ensures Space(s[k]) {
      assert s[k] == spaces[k];
    }
    forall k | 0 <= k < |d| ensures s[j + k] == d[k] {
    }
    DecimalValue(s, j, m);
    assert s[j + 0] == d[0] && IsDigit(s[j]);
    assert (i < j ==> s[i] == sign[0]) && (e < |s| ==> s[e] == rest[0]);
    SpacesEndIs(s, 0, i);
    DigitsEndIs(s, j, e);
  }

  /** A number as it may be written: spaces, a sign or none, digits, and then anything that is no digit. */
  lemma ParsesWritten(spaces: string, sign: string, m: nat, rest: string, base: int)
    requires (base == 0 || base == 10) && (forall i :: 0 <= i < |spaces| ==> Space(spaces[i]))
    requires (sign == "" || sign == "+" || sign == "-") && (rest == [] || !IsDigit(rest[0]))
    ensures var c: int := if m > LONG_MAX then LONG_MAX else m;
            Parse(spaces + sign + Decimal(m) + rest, base)
            == Parsed(if sign == "-" then -c else c, if m > LONG_MAX then ERange else NoError,
                      |spaces| + |sign| + |Decimal(m)|)
  {
    hide Parse, Decimal, ValueIn, SpacesEnd, DigitsEnd;
    SignedNumber(spaces, sign, m, rest);
    var i, j := |spaces|, |spaces| + |sign|;
    ParseIs(spaces + sign + Decimal(m) + rest, base, i, j, j + |Decimal(m)|, sign == "-");
  }

  /** Without a digit after the spaces and the sign, or in another base, nothing is read. */
  lemma ParsesNothing(spaces: string, sign: string, rest: string, base: int)
    requires (forall i :: 0 <= i < |spaces| ==> Space(spaces[i])) && (sign == "" || sign == "+" || sign == "-")
    requires rest == [] || (!IsDigit(rest[0]) && !Space(rest[0]) && rest[0] != '+' && rest[0] != '-')
    ensures Parse(spaces + sign + rest, base)
            == Parsed(0, if base == 0 || base == 10 then NoError else EInval, 0)
  {
    var s, i, j := spaces + sign + rest, |spaces|, |spaces| + |sign|;
    assert forall k :: 0 <= k < i ==> s[k] == spaces[k];
    assert (i < j ==> s[i] == sign[0]) && (j < |s| ==> s[j] == rest[0]);
    SpacesEndIs(s, 0, i);
    DigitsEndIs(s, j, j);
    hide SpacesEnd, DigitsEnd;
  }

  lemma {:induction false} SpacesEndIs(s: string, p: nat, e: nat)
    requires p <= e <= |s| && (forall i :: p <= i < e ==> Space(s[i])) && (e == |s| || !Space(s[e]))
    ensures SpacesEnd(s, p) == e
    decreases e - p
  {
    if p < e {
      SpacesEndIs(s, p + 1, e);
    }
  }

  /** What is printed reads as the magnitude, after the sign. */
  lemma PrintedDigits(n: int, rest: string, j: nat, m: nat)
    requires INT_MIN <= n <= LONG_MAX && j == (if n < 0 then 1 else 0) && m == (if n < 0 then -n else n)
    ensures var s, e := Signed32(n) + rest, |Signed32(n)|;
            && j < e <= |s| && (j == 1 ==> s[0] == '-') && (e < |s| ==> s[e] == rest[0])
            && DigitsIn(s, j, e) && ValueIn(s, j, e) == m
  {
    var d, s := Decimal(m), Signed32(n) + rest;
    SignedIs(n);
    hide Decimal, ValueIn, Signed32;
    forall i | 0 <= i < |d| ensures s[j + i] == d[i] {
      assert s[j + i] == Signed32(n)[j + i];
    }
    hide DigitsIn;
    DecimalValue(s, j, m);
  }

  lemma ClampIs(m: nat)
    ensures Clamp(m) == if m > LONG_MAX then LONG_MAX else m
  {
  }

  /** A minus sign, if any, and then the digits. */
  lemma SignedIs(n: int)
    requires INT_MIN <= n <= LONG_MAX
    ensures var m, j := if n < 0 then -n else n, if n < 0 then 1 else 0;
            && |Decimal(m)| > 0 && |Signed32(n)| == j + |Decimal(m)| && (j == 1 ==> Signed32(n)[0] == '-')
            && forall i :: 0 <= i < |Decimal(m)| ==> Signed32(n)[j + i] == Decimal(m)[i]
  {
    hide Decimal;
  }
}
