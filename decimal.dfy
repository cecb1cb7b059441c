/** HTTP header values are text. When the handler sets `Content-Length` to
    the audio buffer's length, the framework renders that number with
    JavaScript's `String`, which for a non-negative integer of this size is
    its plain decimal numeral. This module models that rendering and the
    reading a client does, and proves that the two agree in both directions:
    `ParseRender` says a client reads back the exact byte count, and
    `RenderParse` says the values the header can take are exactly the
    well-formed numerals (digits only, no leading zero), so no other string
    ever appears as a `Content-Length`. `RenderInjective` follows: two
    different byte counts never share a header value. */
module Decimal {
  import opened Wrappers

  predicate IsDigit(c: char) {
    '0' <= c <= '9'
  }

  function DigitChar(d: nat): (c: char)
    requires d < 10
    ensures IsDigit(c)
  {
    ('0' as int + d) as char
  }

  function DigitValue(c: char): (d: nat)
    requires IsDigit(c)
    ensures d < 10
    ensures DigitChar(d) == c
  {
    (c as int - '0' as int) as nat
  }

  /** A well-formed numeral: one or more digits, without a leading zero
      unless the numeral is "0" itself. */
  predicate Canonical(s: string) {
    |s| >= 1
    && (forall i :: 0 <= i < |s| ==> IsDigit(s[i]))
    && (s[0] == '0' ==> |s| == 1)
  }

  /** The decimal numeral of `n`, as JavaScript's `String(n)` writes it. */
  function Render(n: nat): (s: string)
    ensures Canonical(s)
    ensures (n < 10) == (|s| == 1)
    ensures (s[0] == '0') == (n == 0)
  {
    if n < 10 then [DigitChar(n)]
    else Render(n / 10) + [DigitChar(n % 10)]
  }

  /** Reads a numeral of digits only; anything else is rejected. */
  function Parse(s: string): (r: Option<nat>)
    ensures r.Some? <==> |s| >= 1 && forall i :: 0 <= i < |s| ==> IsDigit(s[i])
  {
    if |s| == 0 then None
    else if !IsDigit(s[|s| - 1]) then None
    else if |s| == 1 then Some(DigitValue(s[0]))
    else match Parse(s[..|s| - 1])
      case None => None
      case Some(p) => Some(p * 10 + DigitValue(s[|s| - 1]))
  }

  /** Reading the rendered numeral gives back the number. */
  lemma {:induction false} ParseRender(n: nat)
    ensures Parse(Render(n)) == Some(n)
  {
    if n >= 10 {
      var s := Render(n);
      assert s[..|s| - 1] == Render(n / 10);
      ParseRender(n / 10);
    }
  }

  /** Rendering is one-to-one: two different lengths never produce the same
      header value. */
  lemma RenderInjective(m: nat, n: nat)
    requires Render(m) == Render(n)
    ensures m == n
  {
    ParseRender(m);
    ParseRender(n);
  }

  /** Every canonical numeral is the rendering of the number it reads as. */
  lemma {:induction false} RenderParse(s: string)
    requires Canonical(s)
    ensures Parse(s).Some? && Render(Parse(s).value) == s
  {
    if |s| > 1 {
      var init, last := s[..|s| - 1], s[|s| - 1];
      assert Canonical(init) && init[0] != '0';
      RenderParse(init);
      var p, d := Parse(init).value, DigitValue(last);
      assert p != 0;
      AppendDigit(p, d);
      assert Parse(s) == Some(p * 10 + d);
      assert s == init + [last];
    }
  }

  /** Appending a digit to the rendering of a positive number renders the
      number times ten plus that digit. */
  lemma AppendDigit(p: nat, d: nat)
    requires p >= 1 && d < 10
    ensures Render(p * 10 + d) == Render(p) + [DigitChar(d)]
  {
  }
}
