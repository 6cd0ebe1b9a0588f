/**
 * `src/utils/colorUtils.ts`: the mood-to-colour mapping and the reader of `hsl(...)` strings
 * that decides whether a background wants light text.
 *
 * Primary and secondary colours are kept as their three numbers, since their lightness is
 * generally fractional and JavaScript's printing of fractions is not modelled; the text colour
 * is one of two fixed strings and is kept as the string itself.
 */
module ColorUtils {
  import opened Wrappers
  import opened Types

  datatype Hsl = Hsl(h: real, s: real, l: real)

  datatype MoodColors = MoodColors(primary: Hsl, secondary: Hsl, text: string)

  /** Near-white text `hsl(0, 0%, 95%)`, for the (darker) negative backgrounds. */
  const LIGHT_TEXT: string := CssHsl(0, 0, 95)
  /** Near-black text `hsl(0, 0%, 15%)`, for every other background. */
  const DARK_TEXT: string := CssHsl(0, 0, 15)

  /**
   * The base colour of each mood: a pale green, a pale grey-blue, a pale red. Each is a valid
   * HSL colour light enough that darkening it by twenty points still leaves it light.
   */
  function BaseColor(m: Mood): (c: Hsl)
    ensures m == Positive ==> c == Hsl(120.0, 40.0, 80.0)
    ensures m == Neutral ==> c == Hsl(210.0, 10.0, 85.0)
    ensures m == Negative ==> c == Hsl(0.0, 60.0, 80.0)
    ensures 0.0 <= c.h < 360.0 && 0.0 <= c.s <= 100.0
    ensures 80.0 <= c.l <= 85.0
  {
    match m
    case Positive => Hsl(120.0, 40.0, 80.0)
    case Neutral => Hsl(210.0, 10.0, 85.0)
    case Negative => Hsl(0.0, 60.0, 80.0)
  }

  /**
   * `getMoodColors`. A missing mood counts as neutral and a missing or zero intensity as one
   * half. The primary colour darkens the base by up to twenty points as intensity grows; the
   * secondary turns the hue by twenty degrees and is ten points lighter for a positive mood
   * and ten darker otherwise, whatever the intensity; the text colour is the light one exactly
   * for a negative mood.
   */
  function GetMoodColors(a: MoodAnalysis): (c: MoodColors)
    ensures var base, i := BaseColor(a.mood.GetOr(Neutral)), OrDefault(a.intensity, 0.5);
      && c.primary == Hsl(base.h, base.s, base.l - 20.0 * i)
      && (0.0 < i <= 1.0 ==> base.l - 20.0 <= c.primary.l < base.l)
      && c.secondary.h == base.h + 20.0 && c.secondary.s == base.s
      && (c.secondary.l > base.l <==> a.mood == Some(Positive))
      && (c.secondary.l - base.l == 10.0 || base.l - c.secondary.l == 10.0)
    ensures c.text == LIGHT_TEXT <==> a.mood == Some(Negative)
    ensures c.text == DARK_TEXT <==> a.mood != Some(Negative)
  {
    LightAndDarkDiffer();
    var mood := a.mood.GetOr(Neutral);
    var base := BaseColor(mood);
    var adjustment := OrDefault(a.intensity, 0.5) * 20.0;
    MoodColors(
      Hsl(base.h, base.s, base.l - adjustment),
      Hsl(base.h + 20.0, base.s, base.l + (if mood == Positive then 10.0 else -10.0)),
      if mood == Negative then LIGHT_TEXT else DARK_TEXT)
  }

  /** The secondary colour depends on the mood alone. */
  lemma SecondaryIgnoresIntensity(a: MoodAnalysis, b: MoodAnalysis)
    requires a.mood.GetOr(Neutral) == b.mood.GetOr(Neutral)
    ensures GetMoodColors(a).secondary == GetMoodColors(b).secondary
  {
  }

  /** An analysis without a mood is coloured exactly as a neutral one. */
  lemma MissingMoodIsNeutral(a: MoodAnalysis)
    ensures GetMoodColors(a.(mood := None)) == GetMoodColors(a.(mood := Some(Neutral)))
  {
  }

  // ---------------------------------------------------------------- reading hsl(...) strings

  /** `\d`. */
  predicate IsDigit(c: char) {
    '0' <= c <= '9'
  }

  /** `\s`: the white space and line terminators of ECMAScript regular expressions. */
  predicate IsSpace(c: char) {
    var n := c as int;
    || 0x09 <= n <= 0x0D || n == 0x20 || n == 0xA0 || n == 0x1680
    || 0x2000 <= n <= 0x200A || n == 0x2028 || n == 0x2029 || n == 0x202F
    || n == 0x205F || n == 0x3000 || n == 0xFEFF
  }

  predicate AllDigits(s: string) {
    forall i :: 0 <= i < |s| ==> IsDigit(s[i])
  }

  predicate AllSpaces(s: string) {
    forall i :: 0 <= i < |s| ==> IsSpace(s[i])
  }

  /** The length of the longest run of digits `s` starts with. */
  function DigitRun(s: string): (k: nat)
    ensures k <= |s|
    ensures forall i :: 0 <= i < k ==> IsDigit(s[i])
    ensures k == |s| || !IsDigit(s[k])
  {
    if |s| > 0 && IsDigit(s[0]) then
      var k := 1 + DigitRun(s[1..]);
      assert forall i :: 1 <= i < k ==> s[i] == s[1..][i - 1];
      k
    else
      0
  }

  /** The longest run of digits `s` starts with, and what follows it. */
  function SplitDigits(s: string): (r: (string, string))
    ensures r.0 + r.1 == s
    ensures AllDigits(r.0)
    ensures r.1 == [] || !IsDigit(r.1[0])
  {
    var k := DigitRun(s);
    assert s[..k] + s[k..] == s;
    (s[..k], s[k..])
  }

  /** What follows the longest run of white space `s` starts with. */
  function SkipSpaces(s: string): (r: string)
    ensures |r| <= |s| && r == s[|s| - |r|..]
    ensures AllSpaces(s[..|s| - |r|])
    ensures r == [] || !IsSpace(r[0])
  {
    if |s| > 0 && IsSpace(s[0]) then SkipSpaces(s[1..]) else s
  }

  function DigitValue(c: char): nat
    requires IsDigit(c)
  {
    c as int - '0' as int
  }

  /** `parseInt(ds, 10)` on a run of decimal digits. */
  function ParseDigits(ds: string): nat
    requires AllDigits(ds)
  {
    if |ds| == 0 then 0 else ParseDigits(ds[..|ds| - 1]) * 10 + DigitValue(ds[|ds| - 1])
  }

  /** The decimal digits of `n`, as JavaScript prints a non-negative integer. */
  function NatText(n: nat): (r: string)
    ensures |r| > 0 && AllDigits(r)
  {
    var last := ['0' + (n % 10) as char];
    if n < 10 then last else NatText(n / 10) + last
  }

  /**
   * Whether `hsl\((\d+),\s*(\d+)%,\s*(\d+)%\)` matches at the very start of `s`, and the
   * lightness it captures if so. Every repetition in the pattern is followed by a character it
   * cannot consume, so the greedy runs are the only ones that can lead to a match; the match
   * is read in four stages, one per literal that opens it or follows a number; the last three
   * each read a number and only the last captures it.
   */
  function MatchHere(s: string): Option<nat> {
    if |s| < 4 || s[..4] != "hsl(" then None else MatchHue(s[4..])
  }

  /** `(\d+),\s*` and the rest. */
  function MatchHue(s: string): Option<nat> {
    var (hue, rest) := SplitDigits(s);
    if hue == [] || |rest| == 0 || rest[0] != ',' then None
    else MatchSaturation(SkipSpaces(rest[1..]))
  }

  /** `(\d+)%,\s*` and the rest. */
  function MatchSaturation(s: string): Option<nat> {
    var (sat, rest) := SplitDigits(s);
    if sat == [] || |rest| < 2 || rest[..2] != "%," then None
    else MatchLightness(SkipSpaces(rest[2..]))
  }

  /** `(\d+)%\)`, giving the captured lightness. */
  function MatchLightness(s: string): Option<nat> {
    var (light, rest) := SplitDigits(s);
    if light == [] || |rest| < 2 || rest[..2] != "%)" then None
    else Some(ParseDigits(light))
  }

  /** The pattern matches at no position of `s` before `k`. */
  ghost predicate NoMatchBefore(s: string, k: nat)
    requires k <= |s|
  {
    forall j :: 0 <= j < k ==> MatchHere(s[j..]).None?
  }

  /**
   * One step of a leftmost search with any matcher `m`: when `m` fails at the start of `s`,
   * the leftmost result in `s[1..]` is the leftmost result in `s`.
   */
  lemma SearchStep(m: string -> Option<nat>, s: string, r: Option<nat>)
    requires |s| > 0 && m(s).None?
    requires r.Some? ==> exists k :: 0 <= k < |s| - 1 && m(s[1..][k..]) == r && forall j :: 0 <= j < k ==> m(s[1..][j..]).None?
    requires (exists k :: 0 <= k < |s| - 1 && m(s[1..][k..]).Some?) ==> r.Some?
    ensures r.Some? ==> exists k :: 0 <= k < |s| && m(s[k..]) == r && forall j :: 0 <= j < k ==> m(s[j..]).None?
    ensures (exists k :: 0 <= k < |s| && m(s[k..]).Some?) ==> r.Some?
  {
    var t := s[1..];
    assert s[0..] == s;
    if r.Some? {
      var k :| 0 <= k < |t| && m(t[k..]) == r && forall j :: 0 <= j < k ==> m(t[j..]).None?;
      assert s[k + 1..] == t[k..];
      forall j | 0 <= j < k + 1 ensures m(s[j..]).None? {
        if j > 0 {
          assert s[j..] == t[j - 1..];
        }
      }
    }
    if exists k :: 0 <= k < |s| && m(s[k..]).Some? {
      var k :| 0 <= k < |s| && m(s[k..]).Some?;
      assert k > 0;
      assert s[k..] == t[k - 1..];
    }
  }

  /**
   * `String.prototype.match` for that pattern: the capture of the leftmost position where it
   * matches, and none when it matches nowhere.
   */
  function FindLightness(s: string): (r: Option<nat>)
    ensures r.Some? ==> exists k :: 0 <= k < |s| && MatchHere(s[k..]) == r && NoMatchBefore(s, k)
    ensures (exists k :: 0 <= k < |s| && MatchHere(s[k..]).Some?) ==> r.Some?
  {
    if MatchHere(s).Some? then
      assert s[0..] == s;
      MatchHere(s)
    else if |s| == 0 then None
    else
      var r := FindLightness(s[1..]);
      SearchStep(MatchHere, s, r);
      r
  }

  /**
   * `shouldUseLightText`: light text exactly when the leftmost `hsl(...)` in the string has a
   * lightness below fifty; a string without one is answered with dark text.
   */
  function ShouldUseLightText(s: string): (r: bool)
    ensures r <==> FindLightness(s).Some? && FindLightness(s).value < 50
    ensures r ==> exists k :: 0 <= k < |s| && MatchHere(s[k..]).Some? && MatchHere(s[k..]).value < 50 && NoMatchBefore(s, k)
    ensures (forall k :: 0 <= k < |s| ==> MatchHere(s[k..]).None?) ==> !r
  {
    match FindLightness(s)
    case None => false
    case Some(l) => l < 50
  }

  /** The string `hsl(H, S%, L%)` for non-negative integer components. */
  function CssHsl(h: nat, s: nat, l: nat): string {
    "hsl(" + (NatText(h) + (", " + (NatText(s) + ("%, " + (NatText(l) + "%)")))))
  }

  lemma {:induction false} ParseNatText(n: nat)
    ensures ParseDigits(NatText(n)) == n
  {
    var t := NatText(n);
    if n >= 10 {
      ParseNatText(n / 10);
      assert t[..|t| - 1] == NatText(n / 10);
    }
  }

  lemma SplitDigitsOf(ds: string, rest: string)
    requires AllDigits(ds)
    requires rest == [] || !IsDigit(rest[0])
    ensures SplitDigits(ds + rest) == (ds, rest)
  {
    var s := ds + rest;
    assert forall i :: 0 <= i < |ds| ==> s[i] == ds[i];
    assert |ds| < |s| ==> s[|ds|] == rest[0];
    assert DigitRun(s) == |ds|;
    assert s[..|ds|] == ds;
    assert s[|ds|..] == rest;
  }

  lemma SkipOneSpace(rest: string)
    requires |rest| > 0 && !IsSpace(rest[0])
    ensures SkipSpaces(" " + rest) == rest
  {
    assert (" " + rest)[1..] == rest;
  }

  /** A non-empty run of digits in front of anything starts the string with a non-space. */
  lemma LeadsWithDigit(ds: string, rest: string)
    requires |ds| > 0 && AllDigits(ds)
    ensures |ds + rest| > 0 && !IsSpace((ds + rest)[0])
  {
    assert (ds + rest)[0] == ds[0];
    assert IsDigit(ds[0]);
  }

  lemma LightnessStage(c: string, tail: string)
    requires |c| > 0 && AllDigits(c)
    ensures MatchLightness(c + ("%)" + tail)) == Some(ParseDigits(c))
  {
    var rest := "%)" + tail;
    SplitDigitsOf(c, rest);
    assert rest[..2] == "%)";
  }

  lemma SaturationStage(b: string, next: string)
    requires |b| > 0 && AllDigits(b)
    requires |next| > 0 && !IsSpace(next[0])
    ensures MatchSaturation(b + ("%, " + next)) == MatchLightness(next)
  {
    var tail := "%, " + next;
    SplitDigitsOf(b, tail);
    assert tail[..2] == "%,";
    assert tail[2..] == " " + next;
    SkipOneSpace(next);
  }

  lemma HueStage(a: string, next: string)
    requires |a| > 0 && AllDigits(a)
    requires |next| > 0 && !IsSpace(next[0])
    ensures MatchHue(a + (", " + next)) == MatchSaturation(next)
  {
    var tail := ", " + next;
    SplitDigitsOf(a, tail);
    assert tail[1..] == " " + next;
    SkipOneSpace(next);
  }

  lemma OpenStage(rest: string)
    ensures MatchHere("hsl(" + rest) == MatchHue(rest)
  {
    var str := "hsl(" + rest;
    assert str[..4] == "hsl(";
    assert str[4..] == rest;
  }

  /**
   * The pattern matches `hsl(A, B%, C%)` for digit strings A, B and C, whatever follows it,
   * and captures C.
   */
  lemma MatchHereOfDigits(a: string, b: string, c: string, tail: string)
    requires |a| > 0 && |b| > 0 && |c| > 0
    requires AllDigits(a) && AllDigits(b) && AllDigits(c)
    ensures MatchHere("hsl(" + (a + (", " + (b + ("%, " + (c + ("%)" + tail))))))) == Some(ParseDigits(c))
  {
    var t3 := c + ("%)" + tail);
    var t2 := b + ("%, " + t3);
    var t1 := a + (", " + t2);
    LeadsWithDigit(c, "%)" + tail);
    LeadsWithDigit(b, "%, " + t3);
    LightnessStage(c, tail);
    SaturationStage(b, t3);
    HueStage(a, t2);
    OpenStage(t1);
  }

  lemma AppendAssoc(x: string, y: string, z: string)
    ensures (x + y) + z == x + (y + z)
  {
  }

  /** A printed `hsl(H, S%, L%)` followed by more text, regrouped stage by stage. */
  lemma CssHslThen(h: nat, s: nat, l: nat, rest: string)
    ensures var a, b, c := NatText(h), NatText(s), NatText(l);
      CssHsl(h, s, l) + rest == "hsl(" + (a + (", " + (b + ("%, " + (c + ("%)" + rest))))))
  {
    var a, b, c := NatText(h), NatText(s), NatText(l);
    var t5 := c + "%)";
    var t4 := "%, " + t5;
    var t3 := b + t4;
    var t2 := ", " + t3;
    var t1 := a + t2;
    AppendAssoc("hsl(", t1, rest);
    AppendAssoc(a, t2, rest);
    AppendAssoc(", ", t3, rest);
    AppendAssoc(b, t4, rest);
    AppendAssoc("%, ", t5, rest);
    AppendAssoc(c, "%)", rest);
  }

  /** Reading back a printed `hsl(H, S%, L%)` yields its lightness, whatever follows it. */
  lemma MatchHereCssHsl(h: nat, s: nat, l: nat, rest: string)
    ensures MatchHere(CssHsl(h, s, l) + rest) == Some(l)
  {
    CssHslThen(h, s, l, rest);
    MatchHereOfDigits(NatText(h), NatText(s), NatText(l), rest);
    ParseNatText(l);
  }

  /**
   * A string that starts with `hsl(H, S%, L%)` is decided by that colour alone: the match is
   * the leftmost one, so any `hsl(...)` later in the string is never read.
   */
  lemma LeadingColorDecides(h: nat, s: nat, l: nat, rest: string)
    ensures ShouldUseLightText(CssHsl(h, s, l) + rest) == (l < 50)
  {
    MatchHereCssHsl(h, s, l, rest);
  }

  /** `hsl(H, S%, L%)` with non-negative integers asks for light text exactly when L < 50. */
  lemma CssHslLightText(h: nat, s: nat, l: nat)
    ensures ShouldUseLightText(CssHsl(h, s, l)) == (l < 50)
  {
    LeadingColorDecides(h, s, l, "");
    assert CssHsl(h, s, l) + "" == CssHsl(h, s, l);
  }

  /**
   * Of two colours in one string the first decides, so a light background written before a
   * dark one, as in `hsl(1, 2%, 80%) hsl(1, 2%, 10%)`, reads as light although the second
   * colour alone reads as dark.
   */
  lemma FirstColorWins(h: nat, s: nat, light: nat, dark: nat)
    requires dark < 50 <= light
    ensures !ShouldUseLightText(CssHsl(h, s, light) + (" " + CssHsl(h, s, dark)))
    ensures ShouldUseLightText(CssHsl(h, s, dark))
  {
    LeadingColorDecides(h, s, light, " " + CssHsl(h, s, dark));
    CssHslLightText(h, s, dark);
  }


  /** Only a string starting with `h` can match at its start. */
  lemma MatchNeedsH(s: string)
    requires |s| == 0 || s[0] != 'h'
    ensures MatchHere(s) == None
  {
    if |s| >= 4 {
      assert s[..4][0] == s[0];
      assert "hsl("[0] == 'h';
    }
  }

  predicate NoH(s: string) {
    forall i :: 0 <= i < |s| ==> s[i] != 'h'
  }

  lemma NoHConcat(a: string, b: string)
    requires NoH(a) && NoH(b)
    ensures NoH(a + b)
  {
    forall i | 0 <= i < |a + b| ensures (a + b)[i] != 'h' {
      if i >= |a| {
        assert (a + b)[i] == b[i - |a|];
      }
    }
  }

  /** A string without the letter `h` holds no `hsl(...)` at all. */
  lemma {:induction false} NoMatchWithoutH(s: string)
    requires NoH(s)
    ensures FindLightness(s) == None
    decreases |s|
  {
    MatchNeedsH(s);
    if |s| > 0 {
      NoMatchWithoutH(s[1..]);
    }
  }

  /** `hsl(A, B%, C.F%)` spelled out, for digit strings A, B, C and F. */
  function FractionalCss(a: string, b: string, c: string, f: string): string {
    "hsl(" + (a + (", " + (b + ("%, " + (c + ("." + (f + "%)")))))))
  }

  lemma DigitsHaveNoH(d: string)
    requires AllDigits(d)
    ensures NoH(d)
  {
    assert !IsDigit('h');
  }

  lemma FractionalNotMatchedHere(a: string, b: string, c: string, f: string)
    requires |a| > 0 && |b| > 0 && |c| > 0
    requires AllDigits(a) && AllDigits(b) && AllDigits(c)
    ensures MatchHere(FractionalCss(a, b, c, f)) == None
  {
    var tail3 := "." + (f + "%)");
    var tail2 := c + tail3;
    SplitDigitsOf(c, tail3);
    assert tail3[..2] != "%)" by {
      assert tail3[0] == '.';
    }
    assert MatchLightness(tail2) == None;
    SaturationStage(b, tail2);
    HueStage(a, b + ("%, " + tail2));
    OpenStage(a + (", " + (b + ("%, " + tail2))));
  }

  lemma FractionalRestHasNoH(a: string, b: string, c: string, f: string)
    requires AllDigits(a) && AllDigits(b) && AllDigits(c) && AllDigits(f)
    ensures NoH(FractionalCss(a, b, c, f)[1..])
  {
    DigitsHaveNoH(a);
    DigitsHaveNoH(b);
    DigitsHaveNoH(c);
    DigitsHaveNoH(f);
    var tail3 := "." + (f + "%)");
    var tail2 := c + tail3;
    var tail1 := a + (", " + (b + ("%, " + tail2)));
    assert FractionalCss(a, b, c, f)[1..] == "sl(" + tail1;
    NoHConcat(f, "%)");
    NoHConcat(".", f + "%)");
    NoHConcat(c, tail3);
    NoHConcat("%, ", tail2);
    NoHConcat(b, "%, " + tail2);
    NoHConcat(", ", b + ("%, " + tail2));
    NoHConcat(a, ", " + (b + ("%, " + tail2)));
    NoHConcat("sl(", tail1);
  }

  /**
   * A fractional lightness such as `hsl(120, 40%, 74.5%)` is not matched at all, so it is
   * answered with dark text whatever its value.
   */
  lemma FractionalLightnessIsDark(h: nat, s: nat, whole: nat, fraction: nat)
    ensures !ShouldUseLightText(FractionalCss(NatText(h), NatText(s), NatText(whole), NatText(fraction)))
  {
    var str := FractionalCss(NatText(h), NatText(s), NatText(whole), NatText(fraction));
    FractionalNotMatchedHere(NatText(h), NatText(s), NatText(whole), NatText(fraction));
    FractionalRestHasNoH(NatText(h), NatText(s), NatText(whole), NatText(fraction));
    NoMatchWithoutH(str[1..]);
  }

  /** The two fixed text colours are read as what they are: 95% is light, 15% is dark. */
  lemma TextColorsRead()
    ensures !ShouldUseLightText(LIGHT_TEXT)
    ensures ShouldUseLightText(DARK_TEXT)
  {
    CssHslLightText(0, 0, 95);
    CssHslLightText(0, 0, 15);
  }

  lemma LightAndDarkDiffer()
    ensures LIGHT_TEXT != DARK_TEXT
  {
    TextColorsRead();
  }

  /**
   * Reading the chosen text colour back as a background: it counts as dark, wanting light text
   * on top, exactly when the mood is not negative.
   */
  lemma TextColorContrast(a: MoodAnalysis)
    ensures ShouldUseLightText(GetMoodColors(a).text) <==> a.mood != Some(Negative)
  {
    TextColorsRead();
  }
}
