/** Node identifiers of the knowledge graph: a kind, a colon and a key (backend/app/graph.py). */
module NodeIds {
  import opened Wrappers

  const NODE_KINDS: seq<string> := ["customer", "commodity", "facility", "bin", "contract", "delivery", "invoice"]

  const DIGITS := "0123456789"

  /** The longest digit string Python 3.12 turns into an integer. */
  const MAX_DIGITS := 4300

  predicate IsAscii(c: char) { '0' <= c <= '9' }

  predicate AllAscii(s: string) { forall i :: 0 <= i < |s| ==> IsAscii(s[i]) }

  function DigitValue(c: char): nat
    requires IsAscii(c)
  {
    c as int - '0' as int
  }

  /** What the Unicode tables say of a character: whether it is a digit of some kind, and its value
      if it is a decimal one. Superscripts are digits without being decimal. */
  datatype Unicode = Unicode(isDigit: char -> bool, decimal: char -> Option<nat>)

  ghost predicate Proper(u: Unicode) {
    && (forall c :: u.decimal(c).Some? ==> u.isDigit(c) && u.decimal(c).value < 10)
    && forall c :: IsAscii(c) ==> u.decimal(c) == Some(DigitValue(c))
  }

  predicate AllDigits(u: Unicode, s: string) {
    s != "" && forall i :: 0 <= i < |s| ==> u.isDigit(s[i])
  }

  predicate AllDecimal(u: Unicode, s: string) {
    forall i :: 0 <= i < |s| ==> u.decimal(s[i]).Some?
  }

  function DecimalNat(n: nat): (s: string)
    ensures s != "" && AllAscii(s)
    ensures n > 0 ==> s[0] != '0'
  {
    if n < 10 then [DIGITS[n]] else DecimalNat(n / 10) + [DIGITS[n % 10]]
  }

  /** An integer as text. */
  function Decimal(n: int): string {
    if n < 0 then "-" + DecimalNat(-n) else DecimalNat(n)
  }

  /** Reading decimal digits of any script; leading zeros are accepted. */
  function ParseNat(u: Unicode, s: string): nat
    requires AllDecimal(u, s)
  {
    if s == "" then 0 else 10 * ParseNat(u, s[..|s| - 1]) + u.decimal(s[|s| - 1]).value
  }

  function NodeId(kind: string, pk: int): string {
    kind + ":" + Decimal(pk)
  }

  /** What stands before and after the first colon. */
  function Partition(raw: string): (string, string) {
    if raw == "" then ("", "")
    else if raw[0] == ':' then ("", raw[1..])
    else
      var (head, tail) := Partition(raw[1..]);
      ([raw[0]] + head, tail)
  }

  /** Digits that are not decimal, or too many of them, pass the first check and are refused by the
      conversion; either way the error is a ValueError. */
  function ParseNodeId(u: Unicode, raw: string): Result<(string, nat), string> {
    var (kind, pk) := Partition(raw);
    if kind !in NODE_KINDS || !AllDigits(u, pk) then Err("bad node id")
    else if !AllDecimal(u, pk) || |pk| > MAX_DIGITS then Err("invalid literal")
    else Ok((kind, ParseNat(u, pk)))
  }

  lemma {:induction false} ParseOfDecimal(u: Unicode, n: nat)
    requires Proper(u)
    ensures AllDecimal(u, DecimalNat(n)) && ParseNat(u, DecimalNat(n)) == n
  {
    var s := DecimalNat(n);
    assert AllAscii(s);
    if n >= 10 {
      ParseOfDecimal(u, n / 10);
      assert s[..|s| - 1] == DecimalNat(n / 10);
    }
  }

  /** The printer produces exactly the ASCII digits without a leading zero. */
  lemma {:induction false} DecimalOfParse(u: Unicode, s: string)
    requires Proper(u) && s != "" && AllDecimal(u, s)
    ensures DecimalNat(ParseNat(u, s)) == s <==> AllAscii(s) && (|s| == 1 || s[0] != '0')
  {
    if AllAscii(s) {
      if |s| == 1 {
        OneDigitPrints(u, s);
      } else if s[0] == '0' {
        NoLeadingZero(u, s);
      } else {
        var init := s[..|s| - 1];
        DecimalOfParse(u, init);
        LeadingDigitPositive(u, init);
        PrintsAsRead(u, s);
      }
    }
  }

  /** One more digit after digits that print as they are read. */
  lemma PrintsAsRead(u: Unicode, s: string)
    requires Proper(u) && |s| > 1 && AllAscii(s) && AllDecimal(u, s)
    requires var init := s[..|s| - 1]; ParseNat(u, init) > 0 && DecimalNat(ParseNat(u, init)) == init
    ensures DecimalNat(ParseNat(u, s)) == s
  {
    var init, last := s[..|s| - 1], s[|s| - 1];
    ReadLast(u, s);
    AppendDigit(ParseNat(u, init), last);
    assert s == init + [last];
    hide *;
  }

  lemma ReadLast(u: Unicode, s: string)
    requires Proper(u) && s != "" && AllAscii(s) && AllDecimal(u, s)
    ensures ParseNat(u, s) == 10 * ParseNat(u, s[..|s| - 1]) + DigitValue(s[|s| - 1])
  {
  }

  lemma OneDigitPrints(u: Unicode, s: string)
    requires Proper(u) && |s| == 1 && IsAscii(s[0]) && AllDecimal(u, s)
    ensures DecimalNat(ParseNat(u, s)) == s
  {
    DigitPrints(s[0]);
    assert s[..0] == "";
  }

  lemma NoLeadingZero(u: Unicode, s: string)
    requires |s| > 1 && AllDecimal(u, s) && s[0] == '0'
    ensures DecimalNat(ParseNat(u, s)) != s
  {
    assert |DecimalNat(0)| == 1;
    hide ParseNat, DecimalNat;
    assert ParseNat(u, s) > 0 ==> DecimalNat(ParseNat(u, s))[0] != '0';
  }

  lemma DigitPrints(c: char)
    requires IsAscii(c)
    ensures DIGITS[DigitValue(c)] == c
  {
  }

  lemma AppendDigit(n: nat, c: char)
    requires n > 0 && IsAscii(c)
    ensures DecimalNat(10 * n + DigitValue(c)) == DecimalNat(n) + [c]
  {
    var d := DigitValue(c);
    var m := 10 * n + d;
    DigitPrints(c);
    assert 0 <= d < 10;
    hide DigitValue;
    assert m / 10 == n && m % 10 == d;
  }

  lemma {:induction false} LeadingDigitPositive(u: Unicode, s: string)
    requires Proper(u) && s != "" && AllAscii(s) && AllDecimal(u, s) && s[0] != '0'
    ensures ParseNat(u, s) > 0
  {
    if |s| > 1 {
      LeadingDigitPositive(u, s[..|s| - 1]);
    }
  }

  lemma {:induction false} PartitionOfJoin(kind: string, pk: string)
    requires ':' !in kind
    ensures Partition(kind + ":" + pk) == (kind, pk)
  {
    var raw := kind + ":" + pk;
    if kind == "" {
      assert raw == ":" + pk;
    } else {
      PartitionOfJoin(kind[1..], pk);
      assert raw[1..] == kind[1..] + ":" + pk;
      assert kind == [kind[0]] + kind[1..];
    }
  }

  lemma {:induction false} PartitionRestores(raw: string)
    ensures ':' !in Partition(raw).0
    ensures ':' in raw ==> raw == Partition(raw).0 + ":" + Partition(raw).1
    ensures ':' !in raw ==> Partition(raw) == (raw, "")
  {
    if raw != "" {
      assert raw == [raw[0]] + raw[1..];
      if raw[0] != ':' {
        PartitionRestores(raw[1..]);
      }
    }
  }

  /** Printing then parsing gives the pair back exactly when the kind is known and the key is not
      negative and not too long; anything else is refused or read as something different. */
  lemma RoundTrip(u: Unicode, kind: string, pk: int)
    requires Proper(u)
    ensures ParseNodeId(u, NodeId(kind, pk)) == Ok((kind, pk)) <==> kind in NODE_KINDS && pk >= 0 && |Decimal(pk)| <= MAX_DIGITS
  {
    if kind in NODE_KINDS {
      KnownKind(kind);
      PartitionOfJoin(kind, Decimal(pk));
      if pk >= 0 {
        ParseOfDecimal(u, pk);
      }
    }
  }

  lemma KnownKind(kind: string)
    requires kind in NODE_KINDS
    ensures ':' !in kind
  {
  }

  /** Different numbers are printed differently. */
  lemma DecimalIsInjective(m: nat, n: nat)
    requires DecimalNat(m) == DecimalNat(n)
    ensures m == n
  {
    var u := Unicode(c => IsAscii(c), c => if IsAscii(c) then Some(DigitValue(c)) else None);
    ParseOfDecimal(u, m);
    ParseOfDecimal(u, n);
  }

  /** Two rows never share a node id. */
  lemma IdsAreInjective(k1: string, p1: int, k2: string, p2: int)
    requires k1 in NODE_KINDS && k2 in NODE_KINDS
    requires NodeId(k1, p1) == NodeId(k2, p2)
    ensures k1 == k2 && p1 == p2
  {
    KnownKind(k1);
    KnownKind(k2);
    PartitionOfJoin(k1, Decimal(p1));
    PartitionOfJoin(k2, Decimal(p2));
    assert Decimal(p1) == Decimal(p2);
    SignedIsInjective(p1, p2);
  }

  lemma SignedIsInjective(p1: int, p2: int)
    requires Decimal(p1) == Decimal(p2)
    ensures p1 == p2
  {
    var n1, n2 := if p1 < 0 then -p1 else p1, if p2 < 0 then -p2 else p2;
    assert DecimalNat(n1)[0] != '-' && DecimalNat(n2)[0] != '-';
    assert (p1 < 0) == (p2 < 0);
    if p1 < 0 {
      assert Decimal(p1)[1..] == DecimalNat(n1) && Decimal(p2)[1..] == DecimalNat(n2);
    }
    DecimalIsInjective(n1, n2);
  }

  /** What an accepted string looks like, and when printing it again gives the same string. */
  lemma ParsedShape(u: Unicode, raw: string)
    requires Proper(u) && ParseNodeId(u, raw).Ok?
    ensures var (kind, pk) := ParseNodeId(u, raw).value;
            var digits := Partition(raw).1;
            && kind in NODE_KINDS && 0 < |digits| <= MAX_DIGITS && AllDecimal(u, digits) && raw == kind + ":" + digits
            && (NodeId(kind, pk) == raw <==> AllAscii(digits) && (|digits| == 1 || digits[0] != '0'))
  {
    PartitionRestores(raw);
    var (kind, digits) := Partition(raw);
    DecimalOfParse(u, digits);
    var again := NodeId(kind, ParseNat(u, digits));
    assert again[|kind| + 1..] == DecimalNat(ParseNat(u, digits));
    assert raw[|kind| + 1..] == digits;
  }

  /** A string is accepted if and only if it is a known kind, a colon and decimal digits, not too many. */
  lemma AcceptedIff(u: Unicode, raw: string)
    requires Proper(u)
    ensures ParseNodeId(u, raw).Ok? <==>
            exists kind, digits :: kind in NODE_KINDS && 0 < |digits| <= MAX_DIGITS && AllDecimal(u, digits) && raw == kind + ":" + digits
  {
    if ParseNodeId(u, raw).Ok? {
      ParsedShape(u, raw);
    }
    if kind, digits :| kind in NODE_KINDS && 0 < |digits| <= MAX_DIGITS && AllDecimal(u, digits) && raw == kind + ":" + digits {
      KnownKind(kind);
      PartitionOfJoin(kind, digits);
    }
  }
}
