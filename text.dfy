/**
 * The text layer shared by both sides of the protocol: the white-space
 * tokeniser that `std::istringstream >>` applies to a request line, and the
 * decimal rendering and reading of amounts.  Amounts are integers (minor
 * units) here; see README.md.
 */
module Text {
  import opened Wrappers

  /** The characters `std::istream` skips as white space in the "C" locale. */
  predicate IsSpace(c: char) {
    c == ' ' || c == '\t' || c == '\n' || c == '\r' || c == '\U{0B}' || c == '\U{0C}'
  }

  /** A token: a non-empty run of characters none of which is white space. */
  predicate IsWord(w: string) {
    w != [] && forall i :: 0 <= i < |w| ==> !IsSpace(w[i])
  }

  /** Length of the longest prefix of `s` without white space. */
  function WordLength(s: string): (n: nat)
    ensures n <= |s|
    ensures forall i :: 0 <= i < n ==> !IsSpace(s[i])
    ensures n < |s| ==> IsSpace(s[n])
  {
    if s == [] || IsSpace(s[0]) then 0 else 1 + WordLength(s[1..])
  }

  /** The tokens that repeated `>>` string extractions read from `s`. */
  function Tokens(s: string): (ts: seq<string>)
    ensures forall i :: 0 <= i < |ts| ==> IsWord(ts[i])
    decreases |s|
  {
    if s == [] then []
    else if IsSpace(s[0]) then Tokens(s[1..])
    else [s[..WordLength(s)]] + Tokens(s[WordLength(s)..])
  }

  /** Words separated by single spaces, as the client builds its messages. */
  function Join(ws: seq<string>): string
    decreases |ws|
  {
    if ws == [] then ""
    else if |ws| == 1 then ws[0]
    else ws[0] + " " + Join(ws[1..])
  }

  /** A word followed by white space (or nothing) is read as exactly that word. */
  lemma {:induction false} WordLengthOfWord(w: string, rest: string)
    requires IsWord(w)
    requires rest == [] || IsSpace(rest[0])
    ensures WordLength(w + rest) == |w|
    decreases |w|
  {
    var s := w + rest;
    assert s[0] == w[0] && !IsSpace(w[0]);
    if |w| == 1 {
      assert s[1..] == rest;
    } else {
      var tail := w[1..];
      assert IsWord(tail) by {
        forall i | 0 <= i < |tail| ensures !IsSpace(tail[i]) {
          assert tail[i] == w[i + 1];
        }
      }
      assert s[1..] == tail + rest;
      WordLengthOfWord(tail, rest);
    }
  }

  /** Leading white space is skipped. */
  lemma TokensSkipSpace(s: string)
    ensures Tokens(" " + s) == Tokens(s)
  {
    assert (" " + s)[1..] == s;
  }

  /** Tokenising words joined by single spaces gives the words back. */
  lemma {:induction false} TokensOfJoin(ws: seq<string>)
    requires forall i :: 0 <= i < |ws| ==> IsWord(ws[i])
    ensures Tokens(Join(ws)) == ws
    decreases |ws|
  {
    if |ws| == 1 {
      var w := ws[0];
      WordLengthOfWord(w, []);
      assert w + [] == w;
      assert w[..|w|] == w && w[|w|..] == [];
    } else if |ws| > 1 {
      var w, rest := ws[0], " " + Join(ws[1..]);
      var s := w + rest;
      assert Join(ws) == s;
      WordLengthOfWord(w, rest);
      assert s[..|w|] == w && s[|w|..] == rest;
      TokensSkipSpace(Join(ws[1..]));
      TokensOfJoin(ws[1..]);
      assert ws == [w] + ws[1..];
    }
  }

  predicate IsDigit(c: char) {
    '0' <= c <= '9'
  }

  function DigitChar(d: nat): (c: char)
    requires d < 10
    ensures IsDigit(c)
  {
    ('0' as int + d) as char
  }

  function DigitValue(c: char): (d: nat)
    requires IsDigit(c)
    ensures d < 10
  {
    c as int - '0' as int
  }

  /** Decimal digits of `n`, most significant first, without leading zeros. */
  function NatText(n: nat): (s: string)
    ensures s != [] && forall i :: 0 <= i < |s| ==> IsDigit(s[i])
    decreases n
  {
    if n < 10 then [DigitChar(n)] else NatText(n / 10) + [DigitChar(n % 10)]
  }

  /** The value of a non-empty string of decimal digits; None for anything else. */
  function ParseNat(s: string): Option<nat>
    decreases |s|
  {
    if s == [] || !IsDigit(s[|s| - 1]) then None
    else if |s| == 1 then Some(DigitValue(s[0]))
    else match ParseNat(s[..|s| - 1]) {
      case None => None
      case Some(v) => Some(10 * v + DigitValue(s[|s| - 1]))
    }
  }

  /** The text of a signed amount: a '-' for a debit, then its digits. */
  function AmountText(a: int): string {
    if a < 0 then "-" + NatText(-a) else NatText(a)
  }

  /** Reads a token as a signed amount, as `>> amount` does for the texts above. */
  function ParseAmount(s: string): Option<int> {
    if s != [] && s[0] == '-' then
      match ParseNat(s[1..]) {
        case None => None
        case Some(v) => Some(-(v as int))
      }
    else
      match ParseNat(s) {
        case None => None
        case Some(v) => Some(v)
      }
  }

  lemma {:induction false} ParseNatText(n: nat)
    ensures ParseNat(NatText(n)) == Some(n)
    decreases n
  {
    if n >= 10 {
      var s := NatText(n);
      assert s[..|s| - 1] == NatText(n / 10);
      ParseNatText(n / 10);
    }
  }

  /** Every amount is written as a single token that reads back as itself. */
  lemma AmountRoundTrip(a: int)
    ensures IsWord(AmountText(a))
    ensures ParseAmount(AmountText(a)) == Some(a)
  {
    if a < 0 {
      assert AmountText(a) == "-" + NatText(-a);
      DebitRoundTrip(-a);
    } else {
      assert AmountText(a) == NatText(a);
      CreditRoundTrip(a);
    }
  }

  /** A credit of `n`: its digits, one token reading back as n. */
  lemma CreditRoundTrip(n: nat)
    ensures IsWord(NatText(n))
    ensures ParseAmount(NatText(n)) == Some(n)
  {
    var digits := NatText(n);
    assert digits[0] != '-';
    ParseNatText(n);
    forall i | 0 <= i < |digits| ensures !IsSpace(digits[i]) {
      assert IsDigit(digits[i]);
    }
  }

  /** A debit of `n`: a '-' before the digits of `n`, one token reading back as -n. */
  lemma DebitRoundTrip(n: nat)
    ensures IsWord("-" + NatText(n))
    ensures ParseAmount("-" + NatText(n)) == Some(-(n as int))
  {
    var digits := NatText(n);
    var s := "-" + digits;
    assert s[0] == '-' && s[1..] == digits;
    ParseNatText(n);
    forall i | 0 <= i < |s| ensures !IsSpace(s[i]) {
      if i > 0 {
        assert s[i] == digits[i - 1];
      }
    }
  }

  /** Different numbers have different texts. */
  lemma NatTextInjective(m: nat, n: nat)
    ensures NatText(m) == NatText(n) <==> m == n
  {
    ParseNatText(m);
    ParseNatText(n);
  }
}
