/** Quoting of strings and numbers inside fact texts. */
module Quoting {
  import opened Common

  /** The escape sequence, or the byte itself, that stands for one byte. */
  function EscapeByte(c: char): string {
    if c == '\\' || c == '"' then ['\\', c]
    else if c == '\n' then "\\n"
    else if c == '\r' then "\\r"
    else if c == '\t' then "\\t"
    else if c < ' ' then " "
    else [c]
  }

  function Escape(s: string): string {
    if s == [] then [] else EscapeByte(s[0]) + Escape(s[1..])
  }

  method EscapeString(s: string) returns (out: string)
    ensures out == Escape(s)
  {
    out := [];
    for i := 0 to |s|
      invariant out == Escape(s[..i])
    {
      EscapeNext(s, i);
      var b, piece := s[i], "";
      if b == '\\' || b == '"' {
        piece := ['\\', b];
      } else if b == '\n' {
        piece := "\\n";
      } else if b == '\r' {
        piece := "\\r";
      } else if b == '\t' {
        piece := "\\t";
      } else if b < ' ' {
        piece := " ";
      } else {
        piece := [b];
      }
      assert piece == EscapeByte(b);
      out := out + piece;
    }
    assert s[..|s|] == s;
  }

  lemma EscapeNext(s: string, i: nat)
    requires i < |s|
    ensures Escape(s[..i + 1]) == Escape(s[..i]) + EscapeByte(s[i])
  {
    EscapeLast(s[..i], s[i]);
    assert s[..i + 1] == s[..i] + [s[i]];
  }

  lemma {:induction false} EscapeLast(s: string, c: char)
    ensures Escape(s + [c]) == Escape(s) + EscapeByte(c)
  {
    if s == [] {
      assert s + [c] == [c] && [c][1..] == [];
    } else {
      EscapeLast(s[1..], c);
      assert (s + [c])[1..] == s[1..] + [c];
    }
  }

  /** What survives escaping: other control bytes become blanks. */
  function Sanitize(s: string): string {
    seq(|s|, i requires 0 <= i < |s| => SanitizeByte(s[i]))
  }

  function SanitizeByte(c: char): char {
    if Lost(c) then ' ' else c
  }

  /** A control byte other than newline, return and tab. */
  predicate Lost(c: char) {
    c < ' ' && c != '\n' && c != '\r' && c != '\t'
  }

  predicate Clean(s: string) {
    forall i | 0 <= i < |s| :: !Lost(s[i])
  }

  // ----- Reading a quoted string back ------------------------------------

  function Unescaped(c: char): char {
    if c == 'n' then '\n' else if c == 'r' then '\r' else if c == 't' then '\t' else c
  }

  /** Reads up to the first quote that no backslash precedes: the text, and what follows the quote. */
  function ReadQuoted(t: string): Option<(string, string)> {
    if t == [] then None
    else if t[0] == '"' then Some(([], t[1..]))
    else if t[0] == '\\' then
      if |t| == 1 then None
      else match ReadQuoted(t[2..])
        case None => None
        case Some((s, rest)) => Some(([Unescaped(t[1])] + s, rest))
    else match ReadQuoted(t[1..])
      case None => None
      case Some((s, rest)) => Some(([t[0]] + s, rest))
  }

  /** An escaped string, its closing quote, and what follows. */
  function Quoted(s: string, rest: string): string {
    Escape(s) + ['"'] + rest
  }

  lemma QuotedNext(s: string, rest: string)
    requires s != []
    ensures Quoted(s, rest) == EscapeByte(s[0]) + Quoted(s[1..], rest)
  {
  }

  /**
    A quoted string ends at its own closing quote and nowhere before, whatever
    it contains and whatever follows, and reads back as its sanitized self.
  */
  lemma {:induction false} QuotedReadsBack(s: string, rest: string)
    ensures ReadQuoted(Quoted(s, rest)) == Some((Sanitize(s), rest))
  {
    if s == [] {
      assert Quoted(s, rest) == ['"'] + rest && Sanitize(s) == [];
    } else {
      QuotedReadsBack(s[1..], rest);
      QuotedNext(s, rest);
      ReadOneByte(s[0], Quoted(s[1..], rest), Sanitize(s[1..]), rest);
      assert Sanitize(s) == [SanitizeByte(s[0])] + Sanitize(s[1..]);
    }
  }

  lemma ReadOneByte(c: char, tail: string, s: string, rest: string)
    requires ReadQuoted(tail) == Some((s, rest))
    ensures ReadQuoted(EscapeByte(c) + tail) == Some(([SanitizeByte(c)] + s, rest))
  {
    var e := EscapeByte(c);
    assert (e + tail)[|e|..] == tail;
  }

  /** Escaping is undone exactly for strings whose only control bytes are newline, return and tab. */
  lemma EscapeIsUndoneExactly(s: string, rest: string)
    ensures ReadQuoted(Quoted(s, rest)) == Some((s, rest)) <==> Clean(s)
  {
    QuotedReadsBack(s, rest);
    if Clean(s) {
      assert Sanitize(s) == s;
    } else {
      var i :| 0 <= i < |s| && Lost(s[i]);
      assert Sanitize(s)[i] != s[i];
    }
  }

  /** Clean texts followed by anything are told apart by their quoted form. */
  lemma QuotedIsInjective(s: string, rest: string, s': string, rest': string)
    requires Clean(s) && Clean(s') && Quoted(s, rest) == Quoted(s', rest')
    ensures s == s' && rest == rest'
  {
    EscapeIsUndoneExactly(s, rest);
    EscapeIsUndoneExactly(s', rest');
  }

  // ----- Decimal numbers -------------------------------------------------

  function Decimal(n: nat): string {
    if n < 10 then ['0' + n as char] else Decimal(n / 10) + ['0' + (n % 10) as char]
  }

  function FromDecimal(s: string): int {
    if s == [] then 0 else 10 * FromDecimal(s[..|s| - 1]) + (s[|s| - 1] as int - '0' as int)
  }

  lemma {:induction false} DecimalReadsBack(n: nat)
    ensures FromDecimal(Decimal(n)) == n
    ensures Decimal(n) != [] && '0' <= Decimal(n)[0] && forall c | c in Decimal(n) :: '0' <= c <= '9'
    ensures n > 0 ==> Decimal(n)[0] != '0'
  {
    var s := Decimal(n);
    if n < 10 {
      assert s[..|s| - 1] == [];
    } else {
      DecimalReadsBack(n / 10);
      assert s[..|s| - 1] == Decimal(n / 10);
    }
  }

  lemma DecimalIsInjective(n: nat, m: nat)
    requires Decimal(n) == Decimal(m)
    ensures n == m
  {
    DecimalReadsBack(n);
    DecimalReadsBack(m);
  }

  function Signed(n: int): string {
    if n < 0 then ['-'] + Decimal(-n) else Decimal(n)
  }

  lemma SignedIsInjective(n: int, m: int)
    requires Signed(n) == Signed(m)
    ensures n == m
  {
    var a, b := if n < 0 then -n else n, if m < 0 then -m else m;
    DecimalReadsBack(a);
    DecimalReadsBack(b);
    if (n < 0) == (m < 0) {
      assert Decimal(a) == Decimal(b) by {
        if n < 0 { assert Signed(n)[1..] == Decimal(a) && Signed(m)[1..] == Decimal(b); }
      }
    }
  }
}
