/** Keyboard navigation of an HTML slide deck. The deck's sections carry the
    ids `slide0` .. `slide<count-1>`; the section shown is the one whose id is
    the URL fragment. A key press moves the fragment to the next or the
    previous slide. */
module Slides {
  import opened Wrappers

  // ---------------------------------------------------------------------
  // Decimal numerals: number-to-string and parseInt
  // ---------------------------------------------------------------------

  predicate IsDigit(c: char) {
    '0' <= c <= '9'
  }

  predicate AllDigits(s: string) {
    forall i | 0 <= i < |s| :: IsDigit(s[i])
  }

  function DigitChar(d: nat): (c: char)
    requires d < 10
    ensures IsDigit(c) && c as int == '0' as int + d
  {
    ('0' as int + d) as char
  }

  function DigitValue(c: char): (d: nat)
    requires IsDigit(c)
    ensures d < 10 && c as int == '0' as int + d
  {
    c as int - '0' as int
  }

  /** The decimal numeral of `n`, most significant digit first, without
      leading zeros: how a non-negative integer is turned into a string. */
  function DecimalString(n: nat): (s: string)
    ensures |s| >= 1 && AllDigits(s)
    ensures s[0] == '0' ==> n == 0
  {
    if n < 10 then [DigitChar(n)] else DecimalString(n / 10) + [DigitChar(n % 10)]
  }

  /** String conversion of an integer-valued number: a minus sign before the
      numeral of its magnitude when negative. */
  function NumberToString(x: int): (s: string)
    ensures ParseInt(s) == Num(x)
    ensures s[0] == '-' <==> x < 0
  {
    if x < 0 then
      DigitsValueOfDecimal(-x);
      "-" + DecimalString(-x)
    else
      DigitsValueOfDecimal(x);
      DecimalString(x)
  }

  /** The value of a string of decimal digits. */
  function DigitsValue(s: string): nat
    requires AllDigits(s)
  {
    if s == [] then 0 else 10 * DigitsValue(s[..|s| - 1]) + DigitValue(s[|s| - 1])
  }

  /** The longest prefix of `s` made of decimal digits. */
  function LeadingDigits(s: string): (d: string)
    ensures d <= s && AllDigits(d)
    ensures |d| < |s| ==> !IsDigit(s[|d|])
    ensures AllDigits(s) ==> d == s
  {
    if s == [] || !IsDigit(s[0]) then [] else [s[0]] + LeadingDigits(s[1..])
  }

  /** A number or NaN, as `parseInt` returns. */
  datatype ParsedInt = Num(n: int) | NaN

  /** The length of an optional leading sign: 1 for `-` or `+`, else 0. */
  function SignLength(s: string): (k: nat)
    ensures k <= |s|
  {
    if |s| > 0 && (s[0] == '-' || s[0] == '+') then 1 else 0
  }

  /** `parseInt(s)` in base 10: an optional sign, then the longest run of
      decimal digits; NaN when there is none. */
  function ParseInt(s: string): (r: ParsedInt)
    // NaN exactly when no digit follows the optional sign
    ensures r.NaN? <==> SignLength(s) == |s| || !IsDigit(s[SignLength(s)])
    // a plain numeral reads as its value, and a minus sign before it negates it
    ensures s != [] && AllDigits(s) ==> r == Num(DigitsValue(s))
    ensures |s| > 1 && s[0] == '-' && AllDigits(s[1..]) ==> r == Num(-(DigitsValue(s[1..]) as int))
    // only a leading minus gives a negative number
    ensures r.Num? && r.n < 0 ==> s[0] == '-'
  {
    var negative := |s| > 0 && s[0] == '-';
    var unsigned := s[SignLength(s)..];
    var digits := LeadingDigits(unsigned);
    var magnitude: int := if digits == [] then 0 else DigitsValue(digits);
    if digits == [] then NaN
    else if negative then Num(-magnitude)
    else Num(magnitude)
  }

  /** `s.substring(start)` for a single argument: the suffix from `start`,
      or the empty string when `start` is past the end. */
  function Substring(s: string, start: nat): (r: string)
    ensures start <= |s| ==> s == s[..start] + r
    ensures start >= |s| ==> r == ""
  {
    if start <= |s| then s[start..] else ""
  }

  lemma {:induction false} DigitsValueOfDecimal(n: nat)
    ensures DigitsValue(DecimalString(n)) == n
  {
    var s := DecimalString(n);
    if n >= 10 {
      DigitsValueOfDecimal(n / 10);
      assert s[..|s| - 1] == DecimalString(n / 10);
      assert DigitValue(s[|s| - 1]) == n % 10;
      assert n == 10 * (n / 10) + n % 10;
    }
  }

  /** `parseInt` reads back the numeral it is given. */
  lemma ParseDecimal(n: nat)
    ensures ParseInt(DecimalString(n)) == Num(n)
  {
    DigitsValueOfDecimal(n);
  }

  // ---------------------------------------------------------------------
  // Slide ids and the URL fragment
  // ---------------------------------------------------------------------

  const SlidePrefix: string := "slide"

  /** The id of slide `n`: `'slide' + n`. */
  function SlideId(n: nat): (id: string)
    ensures |id| > |SlidePrefix| && id[..|SlidePrefix|] == SlidePrefix
  {
    SlidePrefix + DecimalString(n)
  }

  /** Dropping the first five characters of a slide id and parsing the rest
      gives back the slide number. */
  lemma SlideIdRoundTrip(n: nat)
    ensures ParseInt(Substring(SlideId(n), 5)) == Num(n)
  {
    assert Substring(SlideId(n), 5) == DecimalString(n);
    ParseDecimal(n);
  }

  /** Distinct slides have distinct ids. */
  lemma SlideIdInjective(m: nat, n: nat)
    ensures SlideId(m) == SlideId(n) <==> m == n
  {
    if SlideId(m) == SlideId(n) {
      SlideIdRoundTrip(m);
      SlideIdRoundTrip(n);
    }
  }

  /** Assigning `location.hash`: one leading `#` is dropped, so `'#slide0'`
      and `'slide0'` select the same fragment. */
  function HashFragment(value: string): (fragment: string)
    ensures |value| > 0 && value[0] == '#' ==> "#" + fragment == value
    ensures |value| == 0 || value[0] != '#' ==> fragment == value
  {
    if |value| > 0 && value[0] == '#' then value[1..] else value
  }

  /** The first of the sections `from` .. `count - 1` whose id is
      `fragment`: the section that `[id^="slide"]:target` selects. */
  function TargetFrom(fragment: string, from: nat, count: nat): (r: Option<nat>)
    decreases count - from
    ensures r.Some? ==> from <= r.value < count && SlideId(r.value) == fragment
    ensures r.None? ==> forall k | from <= k < count :: SlideId(k) != fragment
  {
    if from >= count then None
    else if SlideId(from) == fragment then Some(from)
    else TargetFrom(fragment, from + 1, count)
  }

  /** The active slide for a fragment, if any. */
  function ActiveSlide(fragment: string, count: nat): (r: Option<nat>)
    ensures r.Some? ==> r.value < count && SlideId(r.value) == fragment
    ensures r.None? ==> forall k | 0 <= k < count :: SlideId(k) != fragment
  {
    TargetFrom(fragment, 0, count)
  }

  /** The fragment of slide `k` selects slide `k` exactly when the deck has
      that slide. */
  lemma ActiveSlideOfId(k: nat, count: nat)
    ensures ActiveSlide(SlideId(k), count) == if k < count then Some(k) else None
  {
    var r := ActiveSlide(SlideId(k), count);
    if r.Some? {
      SlideIdInjective(r.value, k);
    }
  }

  // ---------------------------------------------------------------------
  // The navigation step
  // ---------------------------------------------------------------------

  /** `Space` and `ArrowRight` ask for the next slide; `ArrowLeft` is not
      among them. */
  predicate RequestedNext(code: string)
    ensures RequestedNext(code) ==> code != "ArrowLeft"
  {
    code == "Space" || code == "ArrowRight"
  }

  /** `ArrowLeft` asks for the previous slide; no key asks for both. */
  predicate RequestedPrev(code: string)
    ensures RequestedPrev(code) ==> !RequestedNext(code)
  {
    code == "ArrowLeft"
  }

  /** The slide shown after pressing the key `code` on slide `n` of a deck of
      `count` slides. */
  function Step(n: nat, count: nat, code: string): (next: nat)
    ensures RequestedNext(code) ==>
      (next == n + 1 <==> n < count - 1) && (next != n + 1 ==> next == n)
    ensures RequestedPrev(code) ==>
      (next == n - 1 <==> n > 0) && (n == 0 ==> next == n)
    ensures !RequestedNext(code) && !RequestedPrev(code) ==> next == n
    ensures n < count ==> next < count
  {
    if n < count - 1 && RequestedNext(code) then n + 1
    else if n > 0 && RequestedPrev(code) then n - 1
    else n
  }

  /** Moving forward and then back from any slide but the last returns to it;
      moving back and then forward from any slide but the first does too. */
  lemma StepInverse(n: nat, count: nat)
    ensures n < count - 1 ==> Step(Step(n, count, "ArrowRight"), count, "ArrowLeft") == n
    ensures 0 < n < count ==> Step(Step(n, count, "ArrowLeft"), count, "ArrowRight") == n
  {
  }

  /** A page showing the deck: the number of sections and the URL fragment
      (`location.hash` without its `#`). */
  class Page {
    const slideCount: nat
    var hash: string

    constructor (slideCount: nat, hash: string)
      ensures this.slideCount == slideCount && this.hash == hash
    {
      this.slideCount := slideCount;
      this.hash := hash;
    }

    /** `window.onload`: show the first slide. */
    method OnLoad()
      modifies this
      ensures hash == SlideId(0)
    {
      hash := HashFragment("#slide0");
    }

    /** The `keydown` handler. Without an active slide, reading its id throws
        a TypeError (`threw`) and the fragment is left as it was. */
    method Navigate(code: string) returns (threw: bool)
      modifies this
      ensures threw <==> ActiveSlide(old(hash), slideCount) == None
      ensures threw ==> hash == old(hash)
      ensures !threw ==>
        var n := ActiveSlide(old(hash), slideCount).value;
        hash == SlideId(Step(n, slideCount, code))
    {
      var activeSlide := ActiveSlide(hash, slideCount);
      if activeSlide.None? {
        return true;
      }
      threw := false;
      var id := hash;
      var slideNum := ParseInt(Substring(id, 5));
      SlideIdRoundTrip(activeSlide.value);
      var requestedNext := RequestedNext(code);
      var requestedPrev := RequestedPrev(code);
      if slideNum.Num? && slideNum.n < slideCount - 1 && requestedNext {
        hash := HashFragment(SlidePrefix + NumberToString(slideNum.n + 1));
      }
      if slideNum.Num? && slideNum.n > 0 && requestedPrev {
        hash := HashFragment(SlidePrefix + NumberToString(slideNum.n - 1));
      }
    }
  }

  /** After a key press on an active slide, the fragment still names a slide
      of the deck, so the next key press does not throw either. */
  lemma StepKeepsActive(fragment: string, count: nat, code: string)
    requires ActiveSlide(fragment, count).Some?
    ensures var n := ActiveSlide(fragment, count).value;
      ActiveSlide(SlideId(Step(n, count, code)), count) == Some(Step(n, count, code))
  {
    var n := ActiveSlide(fragment, count).value;
    ActiveSlideOfId(Step(n, count, code), count);
  }

  /** On load the first slide is active exactly when the deck is not empty. */
  lemma OnLoadActive(count: nat)
    ensures ActiveSlide(SlideId(0), count) == if count > 0 then Some(0) else None
  {
  }
}
