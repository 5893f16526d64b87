/** One population cell of the CSV, and the three-way rule that turns its
    text into a number, a null or a leftover string (app.js:19-21, 31-36). */
module Cells {

  /** A parsed cell. JavaScript keeps cells of different types in one array;
      here they share a datatype. `NaN` is what `parseInt` gives for a
      digits-and-dots text with no leading digit; its `typeof` is `'number'`. */
  datatype Cell = Num(n: nat) | NaN | Null | Str(s: string)

  /** `typeof cell === 'number'`. */
  predicate IsNumber(c: Cell)
  {
    c.Num? || c.NaN?
  }

  predicate IsDigit(c: char)
  {
    '0' <= c <= '9'
  }

  /** The characters JavaScript's `\s` class matches. */
  predicate IsJsSpace(c: char)
  {
    c == ' ' || c == '\t' || c == '\n' || c == '\r' || c == '\U{000B}' || c == '\U{000C}'
    || c == '\U{00A0}' || c == '\U{1680}' || ('\U{2000}' <= c <= '\U{200A}')
    || c == '\U{2028}' || c == '\U{2029}' || c == '\U{202F}' || c == '\U{205F}'
    || c == '\U{3000}' || c == '\U{FEFF}'
  }

  /** `val.replace(/\"/g, '')`: every double quote removed. */
  function RemoveQuotes(s: string): (r: string)
    ensures |r| <= |s|
    ensures forall i :: 0 <= i < |r| ==> r[i] != '"'
    ensures (forall i :: 0 <= i < |s| ==> s[i] != '"') ==> r == s
  {
    if |s| == 0 then ""
    else if s[0] == '"' then RemoveQuotes(s[1..])
    else [s[0]] + RemoveQuotes(s[1..])
  }

  /** `/^[0-9\.]+$/`: a non-empty text of digits and dots only. */
  predicate IsNumText(s: string)
  {
    |s| > 0 && forall i :: 0 <= i < |s| ==> IsDigit(s[i]) || s[i] == '.'
  }

  /** `/,\s$/`: the text ends in a comma followed by one whitespace character. */
  predicate EndsInCommaSpace(s: string)
  {
    |s| >= 2 && s[|s| - 2] == ',' && IsJsSpace(s[|s| - 1])
  }

  /** The longest prefix of decimal digits. */
  function LeadingDigits(s: string): (d: string)
    ensures |d| <= |s| && d == s[..|d|]
    ensures forall i :: 0 <= i < |d| ==> IsDigit(d[i])
    ensures |d| < |s| ==> !IsDigit(s[|d|])
  {
    if |s| > 0 && IsDigit(s[0]) then [s[0]] + LeadingDigits(s[1..]) else ""
  }

  function DigitValue(c: char): nat
    requires IsDigit(c)
  {
    c as int - '0' as int
  }

  /** The base-10 value of a digit string, read left to right. */
  function DigitsValue(d: string): nat
    requires forall i :: 0 <= i < |d| ==> IsDigit(d[i])
  {
    if |d| == 0 then 0 else DigitsValue(d[..|d| - 1]) * 10 + DigitValue(d[|d| - 1])
  }

  /** `parseInt(val, 10)` on a text the number pattern accepted: the value of
      its leading digits, or `NaN` when it starts with a dot. */
  function ParseInt(s: string): Cell
    requires IsNumText(s)
  {
    var d := LeadingDigits(s);
    if d == "" then NaN else Num(DigitsValue(d))
  }

  /** The body of the per-cell callback: strip quotes, then number, then null,
      otherwise the stripped text. */
  function Classify(raw: string): Cell
  {
    var v := RemoveQuotes(raw);
    if IsNumText(v) then ParseInt(v)
    else if v == "" || EndsInCommaSpace(v) then Null
    else Str(v)
  }

  /** The four outcomes of `Classify`, each with the condition on the
      quote-stripped text that leads to it. */
  lemma ClassifyOutcomes(raw: string)
    ensures var v := RemoveQuotes(raw);
      && (Classify(raw).Num? <==> IsNumText(v) && IsDigit(v[0]))
      && (Classify(raw).Num? ==> Classify(raw).n == DigitsValue(LeadingDigits(v)))
      && (Classify(raw) == NaN <==> IsNumText(v) && v[0] == '.')
      && (Classify(raw) == Null <==> v == "" || EndsInCommaSpace(v))
      && (Classify(raw).Str? <==> v != "" && !IsNumText(v) && !EndsInCommaSpace(v))
      && (Classify(raw).Str? ==> Classify(raw).s == v && '"' !in v)
  {
    var v := RemoveQuotes(raw);
    if IsNumText(v) {
      assert !IsJsSpace(v[|v| - 1]) by {
        assert IsDigit(v[|v| - 1]) || v[|v| - 1] == '.';
      }
    }
  }

  /** The decimal numeral of `n`, without leading zeros. */
  function Decimal(n: nat): string
  {
    if n < 10 then [('0' as int + n) as char]
    else Decimal(n / 10) + [('0' as int + n % 10) as char]
  }

  lemma {:induction false} DecimalDigits(n: nat)
    ensures |Decimal(n)| >= 1
    ensures forall i :: 0 <= i < |Decimal(n)| ==> IsDigit(Decimal(n)[i])
    ensures DigitsValue(Decimal(n)) == n
  {
    if n >= 10 {
      DecimalDigits(n / 10);
      var d := Decimal(n);
      assert d[..|d| - 1] == Decimal(n / 10);
    }
  }

  lemma {:induction false} LeadingDigitsAppend(a: string, b: string)
    requires forall i :: 0 <= i < |a| ==> IsDigit(a[i])
    requires |b| == 0 || !IsDigit(b[0])
    ensures LeadingDigits(a + b) == a
  {
    if |a| > 0 {
      assert (a + b)[1..] == a[1..] + b;
      LeadingDigitsAppend(a[1..], b);
      assert a == [a[0]] + a[1..];
    } else {
      assert a + b == b;
    }
  }

  /** A population written in decimal, possibly followed by a fractional
      part or trailing dots, classifies as that integer: `"12.9"` gives 12. */
  lemma ClassifyDecimal(n: nat, frac: string)
    requires |frac| == 0 || frac[0] == '.'
    requires forall i :: 0 <= i < |frac| ==> IsDigit(frac[i]) || frac[i] == '.'
    ensures Classify(Decimal(n) + frac) == Num(n)
  {
    var t := Decimal(n) + frac;
    DecimalDigits(n);
    LeadingDigitsAppend(Decimal(n), frac);
    assert RemoveQuotes(t) == t;
    assert IsNumText(t);
  }

  /** A decimal fraction truncates to its integer part. */
  lemma ClassifyFractionExample()
    ensures Classify("12.9") == Num(12)
  {
    assert Decimal(1) == "1";
    assert Decimal(12) == "12";
    assert Decimal(12) + ".9" == "12.9";
    ClassifyDecimal(12, ".9");
  }

  lemma {:induction false} RemoveQuotesAppend(a: string, b: string)
    ensures RemoveQuotes(a + b) == RemoveQuotes(a) + RemoveQuotes(b)
  {
    if |a| > 0 {
      assert (a + b)[1..] == a[1..] + b;
      RemoveQuotesAppend(a[1..], b);
    } else {
      assert a + b == b;
    }
  }

  /** Removing the quotes keeps every other character, as often as it
      occurred, and drops every quote. */
  lemma {:induction false} RemoveQuotesKeeps(s: string)
    ensures multiset(RemoveQuotes(s)) == multiset(s)['"' := 0]
  {
    if |s| > 0 {
      RemoveQuotesKeeps(s[1..]);
      assert s == [s[0]] + s[1..];
      assert multiset(s) == multiset{s[0]} + multiset(s[1..]);
      if s[0] != '"' {
        assert multiset(RemoveQuotes(s)) == multiset{s[0]} + multiset(RemoveQuotes(s[1..]));
      }
    }
  }

  /** A quote anywhere in a cell makes no difference to its classification. */
  lemma ClassifyIgnoresQuote(a: string, b: string)
    ensures Classify(a + "\"" + b) == Classify(a + b)
  {
    assert a + "\"" + b == a + ("\"" + b);
    RemoveQuotesAppend(a, "\"" + b);
    RemoveQuotesAppend("\"", b);
    assert RemoveQuotes("\"") == "";
    RemoveQuotesAppend(a, b);
  }

  /** A lone dot passes the number pattern but has no leading digit: NaN. */
  lemma ClassifyDotIsNaN()
    ensures Classify(".") == NaN
  {
    assert RemoveQuotes(".") == ".";
    assert LeadingDigits(".") == "";
  }

  /** Digits before a trailing comma and space do not save the cell. */
  lemma ClassifyNullExamples()
    ensures Classify("") == Null
    ensures Classify("12, ") == Null
  {
    assert RemoveQuotes("12, ") == "12, ";
    assert !IsNumText("12, ") by { assert "12, "[2] == ','; }
  }

  /** Text that is neither kept as a number nor nulled stays a string. */
  lemma ClassifyStringExample()
    ensures Classify("n/a") == Str("n/a")
  {
    assert RemoveQuotes("n/a") == "n/a";
    assert !IsNumText("n/a") by { assert "n/a"[0] == 'n'; }
  }
}
