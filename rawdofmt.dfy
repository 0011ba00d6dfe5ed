/**
 * The kernel's formatted output (mod/exec/rawdofmt.c), a subset of the
 * conversions of ISO C fprintf (section 7.21.6.1 of ISO/IEC 9899:2011).
 *
 * A format is parsed into `Pieces`: literal characters and conversion
 * specifications (flags, a minimum field width, an optional `l` and a
 * conversion character).  `Render` emits them, taking one argument per
 * numeric, character, string or pointer conversion.  The variable argument
 * list is a sequence of `Arg` values and the `put` callback appends to the
 * output.  The format and string arguments are the characters before their
 * terminating NUL: reading past the end of the sequence reads NUL.
 *
 * The target is 32-bit: int, long, unsigned long and pointers are 32 bits.
 */
module Format {
  import Lists

  /** unsigned long and pointers are 32 bits wide. */
  const ULONG_LIMIT: int := 0x1_0000_0000
  /** The hexadecimal digits of a pointer: sizeof (void *) * CHAR_BIT / 4. */
  const PTR_DIGITS: int := 8
  /** The digit characters putul indexes by value. */
  const HEX: string := "0123456789abcdef"

  /** FLAG_LEFT, FLAG_SIGN, FLAG_SPACE, FLAG_ZERO, FLAG_LONG and FLAG_MINUS. */
  datatype Flags = Flags(left: bool, sign: bool, space: bool, zero: bool, long: bool, minus: bool)

  /** A value passed through the variable argument list. */
  datatype Arg = Num(n: int) | Text(s: string)

  /** A literal character, or a conversion specification. */
  datatype Piece = Lit(c: char) | Conv(flags: Flags, width: nat, conv: char)

  /** The character at i, and NUL past the end. */
  function At(s: string, i: nat): char
  {
    if i < |s| then s[i] else Lists.NUL
  }

  /** The characters before the first NUL. */
  function Cut(s: string): (r: string)
    ensures |r| <= |s| && r == s[..|r|]
    ensures Lists.NUL !in r
    ensures |r| < |s| ==> s[|r|] == Lists.NUL
  {
    if s == [] || s[0] == Lists.NUL then [] else [s[0]] + Cut(s[1..])
  }

  /** Cut(s) is what a scan for the first NUL finds. */
  lemma {:induction false} CutAt(s: string, q: nat)
    requires q <= |s| && At(s, q) == Lists.NUL
    requires forall t :: 0 <= t < q ==> s[t] != Lists.NUL
    ensures Cut(s) == s[..q]
  {
  }

  // Unsigned and signed readings of an argument

  /** va_arg(ap, unsigned int) or va_arg(ap, unsigned long). */
  function Unsigned(n: int): (r: nat)
    ensures r < ULONG_LIMIT && (r - n) % ULONG_LIMIT == 0
  {
    n % ULONG_LIMIT
  }

  /** va_arg(ap, int) or va_arg(ap, long): the two's complement reading. */
  function Signed(n: int): (r: int)
    ensures -0x8000_0000 <= r < 0x8000_0000 && (r - n) % ULONG_LIMIT == 0
  {
    var u := Unsigned(n);
    if u < 0x8000_0000 then u else u - ULONG_LIMIT
  }

  /** The magnitude 'd' prints: -sval for a negative sval, as unsigned long. */
  function Magnitude(n: int): (r: nat)
    ensures r == n || r == -n
  {
    if n < 0 then -n else n
  }

  // Digits

  /** The value of a digit character, for bases up to 16. */
  function DigitValue(c: char): nat
  {
    if '0' <= c <= '9' then (c as int - '0' as int)
    else if 'a' <= c <= 'f' then (c as int - 'a' as int) + 10
    else 0
  }

  /** The number a string of digits stands for, most significant first. */
  function Value(s: string, base: nat): nat
  {
    if s == [] then 0 else Value(s[..|s| - 1], base) * base + DigitValue(s[|s| - 1])
  }

  lemma {:induction false} ValueSnoc(s: string, c: char, base: nat)
    ensures Value(s + [c], base) == Value(s, base) * base + DigitValue(c)
  {
    assert (s + [c])[..|s|] == s;
  }

  lemma Assoc<T>(a: seq<T>, b: seq<T>, c: seq<T>)
    ensures a + (b + c) == (a + b) + c
  {
  }

  /** The parts of a suffix b of s are the corresponding slices of s. */
  lemma SuffixParts<T>(s: seq<T>, b: seq<T>, x: nat)
    requires x <= |b| <= |s| && s[|s| - |b|..] == b
    ensures s[|s| - |b| + x..] == b[x..] && s[|s| - |b|..|s| - |b| + x] == b[..x]
  {
    assert forall t :: |s| - |b| + x <= t < |s| ==> s[t] == b[t - (|s| - |b|)];
  }

  lemma {:induction false} HexDigit(d: nat)
    requires d < 16
    ensures DigitValue(HEX[d]) == d
  {
    if d < 10 {
      assert HEX[d] == ('0' as int + d) as char;
    } else {
      assert HEX[d] == ('a' as int + d - 10) as char;
    }
  }

  /** Euclidean division by the base, as putul's loop uses it. */
  lemma {:induction false} DivMod(v: nat, base: nat)
    requires 2 <= base
    ensures v == Quot(v, base) * base + Rem(v, base)
    ensures v >= base ==> 0 < Quot(v, base) < v
    ensures v < base ==> Quot(v, base) == 0 && Rem(v, base) == v
  {
  }

  /** v / base, the digits still to go. */
  function Quot(v: nat, base: nat): nat
    requires 2 <= base
  {
    v / base
  }

  /** v % base, the last digit. */
  function Rem(v: nat, base: nat): (d: nat)
    requires 2 <= base
    ensures d < base
  {
    v % base
  }

  /** putul's digits of v, most significant first: at least one digit. */
  function Digits(v: nat, base: nat): (r: string)
    requires 2 <= base <= 16
    ensures |r| >= 1
    decreases v
  {
    DivMod(v, base);
    if v < base then [HEX[v]] else Digits(Quot(v, base), base) + [HEX[Rem(v, base)]]
  }

  /** Every digit is a lower-case digit of the base. */
  lemma {:induction false} DigitsLower(v: nat, base: nat)
    requires 2 <= base <= 16
    ensures forall i :: 0 <= i < |Digits(v, base)| ==> Digits(v, base)[i] in HEX[..base]
    decreases v
  {
    DivMod(v, base);
    if v >= base {
      DigitsLower(Quot(v, base), base);
      var r := Digits(v, base);
      var q := Digits(Quot(v, base), base);
      assert HEX[Rem(v, base)] in HEX[..base];
      forall i | 0 <= i < |r| ensures r[i] in HEX[..base] {
        if i < |q| {
          assert r[i] == q[i];
        }
      }
    } else {
      assert HEX[v] in HEX[..base];
    }
  }

  /** Digits and Value are inverse: the printed digits denote the number. */
  lemma {:induction false} DigitsValue(v: nat, base: nat)
    requires 2 <= base <= 16
    ensures Value(Digits(v, base), base) == v
    decreases v
  {
    DivMod(v, base);
    var r := Digits(v, base);
    if v < base {
      HexDigit(v);
      assert r[..0] == [];
    } else {
      var q, d := Quot(v, base), Rem(v, base);
      DigitsValue(q, base);
      HexDigit(d);
      assert r == Digits(q, base) + [HEX[d]];
      assert r[..|r| - 1] == Digits(q, base);
      assert Value(r, base) == Value(Digits(q, base), base) * base + DigitValue(HEX[d]);
    }
  }

  /** There is no leading zero: only 0 is printed starting with '0'. */
  lemma {:induction false} DigitsLeading(v: nat, base: nat)
    requires 2 <= base <= 16
    ensures Digits(v, base)[0] == '0' <==> v == 0
    decreases v
  {
    DivMod(v, base);
    if v >= base {
      DigitsLeading(Quot(v, base), base);
      assert Digits(v, base)[0] == Digits(Quot(v, base), base)[0];
    } else {
      HexDigit(v);
    }
  }

  function Pow(b: nat, n: nat): nat
  {
    if n == 0 then 1 else b * Pow(b, n - 1)
  }

  /** v has n digits exactly when base^(n-1) <= v < base^n. */
  lemma {:induction false} DigitsLength(v: nat, base: nat, n: nat)
    requires 2 <= base <= 16 && n >= 1
    ensures v < Pow(base, n) ==> |Digits(v, base)| <= n
    ensures Pow(base, n - 1) <= v ==> |Digits(v, base)| >= n
    decreases n
  {
    DivMod(v, base);
    if n > 1 {
      PowStep(base, n - 1);
      if v >= base {
        DivBounds(v, base, Pow(base, n - 1), Pow(base, n - 2));
        DigitsLength(Quot(v, base), base, n - 1);
      }
    }
  }

  lemma {:induction false} PowStep(b: nat, n: nat)
    requires b >= 2 && n >= 1
    ensures Pow(b, n) == b * Pow(b, n - 1) && Pow(b, n) >= b
    decreases n
  {
    if n > 1 {
      PowStep(b, n - 1);
    }
  }

  /** Dividing by the base divides the bounds: v < b*P gives v/b < P, and b*Q <= v gives Q <= v/b. */
  lemma {:induction false} DivBounds(v: nat, b: nat, P: nat, Q: nat)
    requires b >= 2 && P == b * Q
    ensures v < b * P ==> Quot(v, b) < P
    ensures P <= v ==> Q <= Quot(v, b)
  {
    DivMod(v, b);
    var q := Quot(v, b);
    if q >= P {
      MulMono(P, q, b);
    }
    if q < Q {
      MulMono(q + 1, Q, b);
      assert (q + 1) * b == q * b + b;
    }
  }

  lemma {:induction false} MulMono(x: int, y: int, b: nat)
    requires x <= y
    ensures x * b <= y * b
    decreases y - x
  {
    if x < y {
      MulMono(x, y - 1, b);
      assert (y - 1) * b + b == y * b;
    }
  }

  // Signs and padding

  /** The character putul puts in front of the digits, if any. */
  function Sign(f: Flags): (r: string)
    ensures |r| <= 1
  {
    if f.minus then "-" else if f.sign then "+" else if f.space then " " else ""
  }

  /** n copies of c; none when n is not positive. */
  function Fill(n: int, c: char): (r: string)
    ensures |r| == if n > 0 then n else 0
    ensures forall i :: 0 <= i < |r| ==> r[i] == c
  {
    seq(if n > 0 then n else 0, _ => c)
  }

  /** The padding right_adjust uses: '0' with FLAG_ZERO, else ' '. */
  function PadChar(f: Flags): char
  {
    if f.zero then '0' else ' '
  }

  /**
   * A field of at least width characters around body: padding on the left
   * ('0' with FLAG_ZERO, else ' '), or spaces on the right with FLAG_LEFT.
   */
  function Pad(f: Flags, body: string, width: int): (r: string)
    ensures |r| == if width > |body| then width else |body|
    ensures f.left ==> r[..|body|] == body && forall i :: |body| <= i < |r| ==> r[i] == ' '
    ensures !f.left ==> r[|r| - |body|..] == body && forall i :: 0 <= i < |r| - |body| ==> r[i] == PadChar(f)
  {
    if f.left then body + Fill(width - |body|, ' ') else Fill(width - |body|, PadChar(f)) + body
  }

  /** putul: the sign and digits of v, padded to width. */
  function Number(v: nat, base: nat, f: Flags, width: int): string
    requires 2 <= base <= 16
  {
    Pad(f, Sign(f) + Digits(v, base), width)
  }

  /**
   * Zero padding goes in front of the sign, and the digits after the padding
   * and the sign denote v.
   */
  lemma {:induction false} NumberDenotes(v: nat, base: nat, f: Flags, width: int)
    requires 2 <= base <= 16 && !f.left
    ensures var s := Number(v, base, f, width);
      var d := |Digits(v, base)|;
      && Value(s[|s| - d..], base) == v
      && s[|s| - d - |Sign(f)|..|s| - d] == Sign(f)
      && forall i :: 0 <= i < |s| - d - |Sign(f)| ==> s[i] == PadChar(f)
  {
    var s := Number(v, base, f, width);
    var body := Sign(f) + Digits(v, base);
    var d := |Digits(v, base)|;
    SuffixParts(s, body, |Sign(f)|);
    assert body[|Sign(f)|..] == Digits(v, base) && body[..|Sign(f)|] == Sign(f);
    assert s[|s| - d..] == Digits(v, base);
    DigitsValue(v, base);
  }

  // putul's digit buffer

  /** The size of buf as written: sizeof (union charlens) + 1. */
  const BUF_SIZE: int := 32 / 3 + 1
  /** The size putul needs: every octal digit of an unsigned long, and a sign. */
  const BUF_LEN: int := (32 + 2) / 3 + 1

  /** %+o of 0xffffffff needs twelve characters: one more than buf holds. */
  lemma {:induction false} BufferOverflows()
    ensures |Sign(Flags(false, true, false, false, false, false)) + Digits(0xffff_ffff, 8)| == 12 > BUF_SIZE
  {
    assert Pow(8, 10) == 0x4000_0000;
    assert Pow(8, 11) == 0x2_0000_0000;
    DigitsLength(0xffff_ffff, 8, 11);
  }

  /** With BUF_LEN characters every conversion's sign and digits fit. */
  lemma {:induction false} BufferFits(v: nat, base: nat, f: Flags)
    requires v < ULONG_LIMIT && (base == 8 || base == 10 || base == 16)
    ensures |Sign(f) + Digits(v, base)| <= BUF_LEN
  {
    if base == 8 {
      assert Pow(8, 11) == 0x2_0000_0000;
      DigitsLength(v, 8, 11);
    } else if base == 10 {
      assert Pow(10, 10) == 10_000_000_000;
      DigitsLength(v, 10, 10);
    } else {
      assert Pow(16, 8) == ULONG_LIMIT;
      DigitsLength(v, 16, 8);
    }
  }

  /** A pointer prints as exactly PTR_DIGITS zero-padded hexadecimal digits. */
  lemma {:induction false} PointerDigits(n: int, w: nat)
    ensures var f := Flags(false, false, false, false, false, false);
      Emit(Conv(f, w, 'p'), [Num(n)]) == Fill(PTR_DIGITS - |Digits(Unsigned(n), 16)|, '0') + Digits(Unsigned(n), 16)
      && |Emit(Conv(f, w, 'p'), [Num(n)])| == PTR_DIGITS
  {
    assert Pow(16, 8) == ULONG_LIMIT;
    DigitsLength(Unsigned(n), 16, 8);
  }

  // Parsing the format

  predicate IsFlag(c: char)
  {
    c == '-' || c == '+' || c == ' ' || c == '0'
  }

  predicate IsDigit(c: char)
  {
    '0' <= c <= '9'
  }

  /** The flags a run of flag characters sets, whatever their order or repetition. */
  function FlagsOf(s: string): Flags
  {
    Flags('-' in s, '+' in s, ' ' in s, '0' in s, false, false)
  }

  /** Where the run of flag characters starting at j ends. */
  function FlagsEnd(fmt: string, j: nat): (e: nat)
    requires j <= |fmt|
    ensures j <= e <= |fmt| && !IsFlag(At(fmt, e))
    decreases |fmt| - j
  {
    if j < |fmt| && IsFlag(fmt[j]) then FlagsEnd(fmt, j + 1) else j
  }

  /** Everything from j up to FlagsEnd is a flag character. */
  lemma {:induction false} FlagsRun(fmt: string, j: nat)
    requires j <= |fmt|
    ensures forall t :: j <= t < FlagsEnd(fmt, j) ==> IsFlag(fmt[t])
    decreases |fmt| - j
  {
    if j < |fmt| && IsFlag(fmt[j]) {
      FlagsRun(fmt, j + 1);
    }
  }

  /** Where the run of decimal digits starting at j ends. */
  function DigitsEnd(fmt: string, j: nat): (e: nat)
    requires j <= |fmt|
    ensures j <= e <= |fmt| && !IsDigit(At(fmt, e))
    decreases |fmt| - j
  {
    if j < |fmt| && IsDigit(fmt[j]) then DigitsEnd(fmt, j + 1) else j
  }

  /** Everything from j up to DigitsEnd is a decimal digit. */
  lemma {:induction false} DigitsRun(fmt: string, j: nat)
    requires j <= |fmt|
    ensures forall t :: j <= t < DigitsEnd(fmt, j) ==> IsDigit(fmt[t])
    decreases |fmt| - j
  {
    if j < |fmt| && IsDigit(fmt[j]) {
      DigitsRun(fmt, j + 1);
    }
  }

  /**
   * The pieces of the format from i: a character other than '%' is a
   * literal; '%' starts flags, width digits, an optional 'l' and the
   * conversion character.  Parsing stops at NUL, also inside a specification.
   */
  function Pieces(fmt: string, i: nat): seq<Piece>
    requires i <= |fmt|
    decreases |fmt| - i
  {
    var c := At(fmt, i);
    if c == Lists.NUL then []
    else if c != '%' then [Lit(c)] + Pieces(fmt, i + 1)
    else
      var sp := Spec(fmt, i);
      if sp.0.conv == Lists.NUL then [] else [sp.0] + Pieces(fmt, sp.1)
  }

  /**
   * The conversion specification after the '%' at i, and where the format
   * continues after it.  A NUL conversion character ends the format.
   */
  function Spec(fmt: string, i: nat): (r: (Piece, nat))
    requires i < |fmt|
    ensures r.0.Conv? && i < r.1 && (r.0.conv != Lists.NUL ==> r.1 <= |fmt|)
  {
    var j := FlagsEnd(fmt, i + 1);
    var k := DigitsEnd(fmt, j);
    var long := At(fmt, k) == 'l';
    var m := if long then k + 1 else k;
    (Conv(FlagsOf(fmt[i + 1..j]).(long := long), Value(fmt[j..k], 10), At(fmt, m)), m + 1)
  }

  // Rendering

  /** The number of arguments a piece takes. */
  function Needs(p: Piece): nat
  {
    if p.Conv? && p.conv in "duoxXcsp" then 1 else 0
  }

  /** The arguments supply what the piece takes: a string for 's', a number otherwise. */
  predicate Takes(p: Piece, args: seq<Arg>)
  {
    Needs(p) <= |args| && (Needs(p) == 1 ==> if p.conv == 's' then args[0].Text? else args[0].Num?)
  }

  /** Every piece finds its argument, in order. */
  predicate Fits(ps: seq<Piece>, args: seq<Arg>)
    decreases |ps|
  {
    ps == [] || (Takes(ps[0], args) && Fits(ps[1..], args[Needs(ps[0])..]))
  }

  /**
   * What one piece emits.  'd' is signed decimal; 'u', 'o', 'x' and 'X' are
   * unsigned in bases 10, 8, 16 and 16, all with lower-case digits; 'c' is one
   * character; 's' the string up to its NUL; 'p' the value in hexadecimal,
   * zero-padded to PTR_DIGITS; any other character is echoed.
   */
  function Emit(p: Piece, args: seq<Arg>): string
    requires Takes(p, args)
  {
    match p
    case Lit(c) => [c]
    case Conv(f, w, c) =>
      if c == 'd' then
        var s := Signed(args[0].n);
        Number(Magnitude(s), 10, if s < 0 then f.(minus := true) else f, w)
      else if c == 'u' then Number(Unsigned(args[0].n), 10, f, w)
      else if c == 'o' then Number(Unsigned(args[0].n), 8, f, w)
      else if c == 'x' || c == 'X' then Number(Unsigned(args[0].n), 16, f, w)
      else if c == 'c' then [(Unsigned(args[0].n) % 256) as char]
      else if c == 's' then Pad(f, Cut(args[0].s), w)
      else if c == 'p' then Number(Unsigned(args[0].n), 16, f.(zero := true), PTR_DIGITS)
      else [c]
  }

  function Render(ps: seq<Piece>, args: seq<Arg>): string
    requires Fits(ps, args)
    decreases |ps|
  {
    if ps == [] then [] else Emit(ps[0], args) + Render(ps[1..], args[Needs(ps[0])..])
  }

  /** The output of iRawDoFmt for a format and its arguments. */
  function Formatted(fmt: string, args: seq<Arg>): string
    requires Fits(Pieces(fmt, 0), args)
  {
    Render(Pieces(fmt, 0), args)
  }

  lemma {:induction false} RenderCons(p: Piece, ps: seq<Piece>, args: seq<Arg>)
    requires Fits([p] + ps, args)
    ensures Takes(p, args) && Fits(ps, args[Needs(p)..])
    ensures Render([p] + ps, args) == Emit(p, args) + Render(ps, args[Needs(p)..])
  {
    assert ([p] + ps)[1..] == ps;
  }

  /** Literals of a string. */
  function Lits(s: string): (ps: seq<Piece>)
    ensures |ps| == |s| && forall i :: 0 <= i < |s| ==> ps[i] == Lit(s[i])
  {
    if s == [] then [] else [Lit(s[0])] + Lits(s[1..])
  }

  /** A format without '%' before its NUL is copied up to the NUL, whatever the arguments. */
  lemma {:induction false} PlainText(fmt: string, i: nat, args: seq<Arg>)
    requires i <= |fmt| && '%' !in Cut(fmt[i..])
    ensures Pieces(fmt, i) == Lits(Cut(fmt[i..]))
    ensures Fits(Pieces(fmt, i), args) && Render(Pieces(fmt, i), args) == Cut(fmt[i..])
    decreases |fmt| - i
  {
    var c := At(fmt, i);
    if c != Lists.NUL {
      assert fmt[i..] == [c] + fmt[i + 1..];
      assert Cut(fmt[i..]) == [c] + Cut(fmt[i + 1..]);
      PlainText(fmt, i + 1, args);
      RenderCons(Lit(c), Pieces(fmt, i + 1), args);
    } else if i < |fmt| {
      assert fmt[i..][0] == Lists.NUL;
    }
  }

  /** Nothing after a NUL of the format matters. */
  lemma {:induction false} StopsAtNul(fmt: string, i: nat, n: nat)
    requires i <= n < |fmt| && fmt[n] == Lists.NUL
    ensures Pieces(fmt, i) == Pieces(fmt[..n], i)
    decreases n - i
  {
    var g := fmt[..n];
    AtAgree(fmt, g, i, n);
    var c := At(fmt, i);
    if c != Lists.NUL && c != '%' {
      StopsAtNul(fmt, i + 1, n);
      assert Pieces(fmt, i) == [Lit(c)] + Pieces(fmt, i + 1);
      assert Pieces(g, i) == [Lit(c)] + Pieces(g, i + 1);
    } else if c == '%' {
      SpecAgree(fmt, i, n);
      var sp := Spec(fmt, i);
      if sp.0.conv != Lists.NUL {
        StopsAtNul(fmt, sp.1, n);
        assert Pieces(fmt, i) == [sp.0] + Pieces(fmt, sp.1);
        assert Pieces(g, i) == [sp.0] + Pieces(g, sp.1);
      }
    }
  }

  /** A conversion specification before the NUL reads the same without what follows the NUL. */
  lemma {:induction false} SpecAgree(fmt: string, i: nat, n: nat)
    requires i < n < |fmt| && fmt[n] == Lists.NUL
    ensures Spec(fmt, i) == Spec(fmt[..n], i)
    ensures Spec(fmt, i).0.conv != Lists.NUL ==> Spec(fmt, i).1 <= n
  {
    var g := fmt[..n];
    RunsAgree(fmt, g, i + 1, n);
    var j := FlagsEnd(fmt, i + 1);
    var k := DigitsEnd(fmt, j);
    AtAgree(fmt, g, k, n);
    var m := if At(fmt, k) == 'l' then k + 1 else k;
    AtAgree(fmt, g, m, n);
    SliceAgree(fmt, g, i + 1, j, n);
    SliceAgree(fmt, g, j, k, n);
  }

  lemma {:induction false} AtAgree(fmt: string, g: string, t: nat, n: nat)
    requires t <= n < |fmt| && g == fmt[..n] && fmt[n] == Lists.NUL
    ensures At(fmt, t) == At(g, t)
  {
  }

  lemma {:induction false} SliceAgree(fmt: string, g: string, a: nat, b: nat, n: nat)
    requires a <= b <= n <= |fmt| && g == fmt[..n]
    ensures fmt[a..b] == g[a..b]
  {
  }

  /** The flag and digit runs end at the same place in the format and in its part before NUL. */
  lemma {:induction false} RunsAgree(fmt: string, g: string, j: nat, n: nat)
    requires j <= n < |fmt| && g == fmt[..n] && fmt[n] == Lists.NUL
    ensures FlagsEnd(fmt, j) == FlagsEnd(g, j) <= n
    ensures DigitsEnd(fmt, FlagsEnd(fmt, j)) == DigitsEnd(g, FlagsEnd(g, j)) <= n
  {
    FlagsAgree(fmt, g, j, n);
    DigitsAgree(fmt, g, FlagsEnd(fmt, j), n);
  }

  lemma {:induction false} FlagsAgree(fmt: string, g: string, j: nat, n: nat)
    requires j <= n < |fmt| && g == fmt[..n] && fmt[n] == Lists.NUL
    ensures FlagsEnd(fmt, j) == FlagsEnd(g, j) <= n
    decreases n - j
  {
    if j < n && IsFlag(fmt[j]) {
      FlagsAgree(fmt, g, j + 1, n);
    }
  }

  lemma {:induction false} DigitsAgree(fmt: string, g: string, j: nat, n: nat)
    requires j <= n < |fmt| && g == fmt[..n] && fmt[n] == Lists.NUL
    ensures DigitsEnd(fmt, j) == DigitsEnd(g, j) <= n
    decreases n - j
  {
    if j < n && IsDigit(fmt[j]) {
      DigitsAgree(fmt, g, j + 1, n);
    }
  }

  // The C functions

  /** right_adjust: the left padding, and the width left over for left_adjust. */
  method RightAdjust(flags: Flags, width: int) returns (fill: string, rest: int)
    ensures fill == if flags.left then [] else Fill(width, PadChar(flags))
    ensures rest == if flags.left || width <= 0 then width else 0
  {
    fill := [];
    rest := width;
    if !flags.left {
      var t := PadChar(flags);
      while 0 < rest
        invariant width <= 0 ==> rest == width && fill == []
        invariant width > 0 ==> 0 <= rest <= width && fill == Fill(width - rest, t)
      {
        fill := fill + [t];
        rest := rest - 1;
      }
    }
  }

  /** left_adjust: spaces on the right with FLAG_LEFT. */
  method LeftAdjust(flags: Flags, width: int) returns (fill: string)
    ensures fill == if flags.left then Fill(width, ' ') else []
  {
    fill := [];
    if flags.left {
      var n := width;
      while 0 < n
        invariant width <= 0 ==> n == width && fill == []
        invariant width > 0 ==> 0 <= n <= width && fill == Fill(width - n, ' ')
      {
        fill := fill + [' '];
        n := n - 1;
      }
    }
  }

  function Reverse(s: string): (r: string)
    ensures |r| == |s|
  {
    if s == [] then [] else [s[|s| - 1]] + Reverse(s[..|s| - 1])
  }

  /** putul's first loop: the digits of val into buf, least significant first. */
  method Encode(buf: array<char>, val: nat, base: nat) returns (p: nat)
    requires 2 <= base <= 16 && |Digits(val, base)| <= buf.Length
    modifies buf
    ensures p == |Digits(val, base)| && Reverse(buf[..p]) == Digits(val, base)
  {
    p := 0;
    var v: nat := val;
    assert buf[..0] == [];
    while true
      invariant p + |Digits(v, base)| == |Digits(val, base)| <= buf.Length
      invariant Digits(val, base) == Digits(v, base) + Reverse(buf[..p])
      decreases v
    {
      ghost var low := buf[..p];
      var c := HEX[Rem(v, base)];
      buf[p] := c;
      assert buf[..p + 1] == low + [c];
      EncodeStep(val, v, base, low);
      p := p + 1;
      if Quot(v, base) == 0 {
        break;
      }
      v := Quot(v, base);
    }
  }

  /** One round of Encode: the last digit of v moves from the digits still to go to buf. */
  lemma {:induction false} EncodeStep(val: nat, v: nat, base: nat, low: string)
    requires 2 <= base <= 16 && Digits(val, base) == Digits(v, base) + Reverse(low)
    ensures Rem(v, base) < base
    ensures Quot(v, base) == 0 ==> |Digits(v, base)| == 1 && Digits(val, base) == Reverse(low + [HEX[Rem(v, base)]])
    ensures Quot(v, base) != 0 ==> Quot(v, base) < v && |Digits(v, base)| == |Digits(Quot(v, base), base)| + 1
    ensures Quot(v, base) != 0 ==> Digits(val, base) == Digits(Quot(v, base), base) + Reverse(low + [HEX[Rem(v, base)]])
  {
    var c := HEX[Rem(v, base)];
    DigitsLast(v, base);
    ReverseSnoc(low, c);
    if Quot(v, base) != 0 {
      Assoc(Digits(Quot(v, base), base), [c], Reverse(low));
    }
  }

  /** The last digit of v, after the digits of Quot(v, base). */
  lemma {:induction false} DigitsLast(v: nat, base: nat)
    requires 2 <= base <= 16
    ensures Rem(v, base) < base && (Quot(v, base) == 0 <==> v < base) && (Quot(v, base) < v || v == 0)
    ensures Digits(v, base) == (if v < base then [] else Digits(Quot(v, base), base)) + [HEX[Rem(v, base)]]
  {
    DivMod(v, base);
  }

  lemma {:induction false} ReverseSnoc(s: string, c: char)
    ensures Reverse(s + [c]) == [c] + Reverse(s)
  {
    assert (s + [c])[..|s|] == s;
  }

  /** putul's last loop: buf[..p] from the last character to the first. */
  method Decode(buf: array<char>, p: nat) returns (body: string)
    requires 0 < p <= buf.Length
    ensures body == Reverse(buf[..p])
  {
    body := [];
    var q := p;
    while true
      invariant 0 < q <= p
      invariant body + Reverse(buf[..q]) == Reverse(buf[..p])
      decreases q
    {
      q := q - 1;
      assert buf[..q + 1][..q] == buf[..q];
      body := body + [buf[q]];
      if q <= 0 {
        assert buf[..q] == [];
        break;
      }
    }
  }

  /** putul: the sign and digits of val, padded to width. */
  method PutUl(val: nat, base: nat, flags: Flags, width: int) returns (out: string)
    requires val < ULONG_LIMIT && (base == 8 || base == 10 || base == 16)
    ensures out == Number(val, base, flags, width)
  {
    BufferFits(val, base, flags);
    var buf := new char[BUF_LEN];
    var p := Encode(buf, val, base);
    p := PutSign(buf, p, flags);
    var fill, rest := RightAdjust(flags, width - p);
    var body := Decode(buf, p);
    var tail := LeftAdjust(flags, rest);
    Padded(flags, body, width, fill, rest, tail);
    out := fill + body + tail;
  }

  /** putul's sign character after the digits in buf. */
  method PutSign(buf: array<char>, p: nat, flags: Flags) returns (q: nat)
    requires p + |Sign(flags)| <= buf.Length
    modifies buf
    ensures q == p + |Sign(flags)| && Reverse(buf[..q]) == Sign(flags) + Reverse(old(buf[..p]))
  {
    q := p;
    if flags.minus || flags.sign || flags.space {
      ghost var digits := buf[..p];
      buf[p] := if flags.minus then '-' else if flags.sign then '+' else ' ';
      assert buf[..p + 1] == digits + [buf[p]];
      assert buf[..p + 1][..p] == digits;
      q := p + 1;
    }
  }

  /** right_adjust, the body and left_adjust give the padded field. */
  lemma {:induction false} Padded(flags: Flags, body: string, width: int, fill: string, rest: int, tail: string)
    requires fill == if flags.left then [] else Fill(width - |body|, PadChar(flags))
    requires rest == if flags.left || width - |body| <= 0 then width - |body| else 0
    requires tail == if flags.left then Fill(rest, ' ') else []
    ensures fill + body + tail == Pad(flags, body, width)
  {
    if flags.left {
      assert fill + body + tail == body + tail;
    } else {
      assert fill + body + tail == fill + body;
    }
  }

  /** The 's' conversion: the string up to its NUL, padded to width. */
  method PutStr(s: string, flags: Flags, width: int) returns (out: string)
    ensures out == Pad(flags, Cut(s), width)
  {
    var q := 0;
    while At(s, q) != Lists.NUL
      invariant q <= |s| && forall t :: 0 <= t < q ==> s[t] != Lists.NUL
      decreases |s| - q
    {
      q := q + 1;
    }
    CutAt(s, q);
    var fill, rest := RightAdjust(flags, width - q);
    var body := [];
    var i := 0;
    while true
      invariant i <= q && body == s[..i]
      decreases q - i
    {
      var c := At(s, i);
      if c == Lists.NUL {
        break;
      }
      assert s[..i + 1] == body + [c];
      body := body + [c];
      i := i + 1;
    }
    var tail := LeftAdjust(flags, rest);
    Padded(flags, body, width, fill, rest, tail);
    out := fill + body + tail;
  }

  /** One conversion of the switch in iRawDoFmt. */
  method Convert(p: Piece, args: seq<Arg>) returns (out: string)
    requires p.Conv? && Takes(p, args)
    ensures out == Emit(p, args)
  {
    var flags, width, c := p.flags, p.width, p.conv;
    if c == 'd' {
      var sval := Signed(args[0].n);
      var val := sval;
      if sval < 0 {
        val := -sval;
        flags := flags.(minus := true);
      }
      out := PutUl(val, 10, flags, width);
    } else if c == 'x' || c == 'X' || c == 'u' || c == 'o' {
      var base := 8;
      if c == 'x' || c == 'X' {
        base := base + 6;
      }
      if c != 'o' {
        base := base + 2;
      }
      out := PutUl(Unsigned(args[0].n), base, flags, width);
    } else if c == 'c' {
      out := [(Unsigned(args[0].n) % 256) as char];
    } else if c == 's' {
      out := PutStr(args[0].s, flags, width);
    } else if c == 'p' {
      out := PutUl(Unsigned(args[0].n), 16, flags.(zero := true), PTR_DIGITS);
    } else {
      out := [c];
    }
  }

  /** The flag loop of iRawDoFmt. */
  method ScanFlags(fmt: string, j: nat) returns (flags: Flags, e: nat)
    requires j <= |fmt|
    ensures e == FlagsEnd(fmt, j) && flags == FlagsOf(fmt[j..e])
  {
    flags := Flags(false, false, false, false, false, false);
    e := j;
    while IsFlag(At(fmt, e))
      invariant j <= e <= |fmt| && FlagsEnd(fmt, e) == FlagsEnd(fmt, j)
      invariant flags == FlagsOf(fmt[j..e])
      decreases |fmt| - e
    {
      var c := fmt[e];
      assert fmt[j..e + 1] == fmt[j..e] + [c];
      if c == '-' {
        flags := flags.(left := true);
      } else if c == '+' {
        flags := flags.(sign := true);
      } else if c == ' ' {
        flags := flags.(space := true);
      } else {
        flags := flags.(zero := true);
      }
      e := e + 1;
    }
  }

  /** The width loop of iRawDoFmt: width = width * 10 + (c - '0') per digit. */
  method ScanWidth(fmt: string, j: nat) returns (width: nat, e: nat)
    requires j <= |fmt|
    ensures e == DigitsEnd(fmt, j) && width == Value(fmt[j..e], 10)
  {
    width := 0;
    e := j;
    while IsDigit(At(fmt, e))
      invariant j <= e <= |fmt| && DigitsEnd(fmt, e) == DigitsEnd(fmt, j)
      invariant width == Value(fmt[j..e], 10)
      decreases |fmt| - e
    {
      var c := fmt[e];
      assert fmt[j..e + 1] == fmt[j..e] + [c];
      ValueSnoc(fmt[j..e], c, 10);
      width := width * 10 + (c as int - '0' as int);
      e := e + 1;
    }
  }

  /** One step of iRawDoFmt: the emitted text moves from the rest of the rendering to the output. */
  lemma {:induction false} RenderStep(p: Piece, ps: seq<Piece>, args: seq<Arg>, k: nat)
    requires k <= |args| && Fits([p] + ps, args[k..])
    ensures Takes(p, args[k..]) && k + Needs(p) <= |args| && Fits(ps, args[k + Needs(p)..])
    ensures Render([p] + ps, args[k..]) == Emit(p, args[k..]) + Render(ps, args[k + Needs(p)..])
  {
    RenderCons(p, ps, args[k..]);
    assert args[k..][Needs(p)..] == args[k + Needs(p)..];
  }

  /**
   * One conversion specification of iRawDoFmt after its '%': flags, width,
   * an optional 'l' and the conversion character.  A NUL instead of the
   * conversion character stops the format.
   */
  method ScanSpec(fmt: string, i: nat) returns (p: Piece, next: nat)
    requires i < |fmt|
    ensures (p, next) == Spec(fmt, i)
  {
    var flags, j := ScanFlags(fmt, i + 1);
    var width, m := ScanWidth(fmt, j);
    if At(fmt, m) == 'l' {
      flags := flags.(long := true);
      m := m + 1;
    }
    p := Conv(flags, width, At(fmt, m));
    next := m + 1;
  }

  /**
   * iRawDoFmt: the output is the rendering of the format's pieces with the
   * arguments.  The arguments must match the conversions, as va_arg demands.
   */
  method RawDoFmt(fmt: string, args: seq<Arg>) returns (out: string)
    requires Fits(Pieces(fmt, 0), args)
    ensures out == Formatted(fmt, args)
  {
    out := [];
    var i: nat := 0;
    var k: nat := 0;
    while true
      invariant i <= |fmt| && k <= |args|
      invariant Fits(Pieces(fmt, i), args[k..])
      invariant out + Render(Pieces(fmt, i), args[k..]) == Formatted(fmt, args)
      decreases |fmt| - i
    {
      var s, i', k', done := Step(fmt, i, args, k);
      if done {
        return;
      }
      Assoc(out, s, Render(Pieces(fmt, i'), args[k'..]));
      out := out + s;
      i, k := i', k';
    }
  }

  /**
   * One round of iRawDoFmt's loop from fmt[i] with the arguments from k:
   * the text put, and where the format and the arguments continue.
   */
  method Step(fmt: string, i: nat, args: seq<Arg>, k: nat) returns (s: string, i': nat, k': nat, done: bool)
    requires i <= |fmt| && k <= |args| && Fits(Pieces(fmt, i), args[k..])
    ensures done ==> Pieces(fmt, i) == []
    ensures !done ==> i < i' <= |fmt| && k <= k' <= |args| && Fits(Pieces(fmt, i'), args[k'..])
    ensures !done ==> Render(Pieces(fmt, i), args[k..]) == s + Render(Pieces(fmt, i'), args[k'..])
  {
    var c := At(fmt, i);
    s, i', k', done := [], i, k, true;
    if c == Lists.NUL {
      assert Pieces(fmt, i) == [];
    } else if c != '%' {
      assert Pieces(fmt, i) == [Lit(c)] + Pieces(fmt, i + 1);
      RenderStep(Lit(c), Pieces(fmt, i + 1), args, k);
      s, i', done := [c], i + 1, false;
    } else {
      var p, next := ScanSpec(fmt, i);
      if p.conv != Lists.NUL {
        assert Pieces(fmt, i) == [p] + Pieces(fmt, next);
        RenderStep(p, Pieces(fmt, next), args, k);
        s := Convert(p, args[k..]);
        i', k', done := next, k + Needs(p), false;
      }
    }
  }
}
