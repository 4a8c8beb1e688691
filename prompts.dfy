/** The daily reading prompt: `seededRand` (the xmur3 string hash feeding
    the sfc32 generator, all on 32-bit words), the `PROMPTS` list, the
    calendar-day seed and the prompt choice of `newPrompt`. */
module Prompts {
  import opened Wrappers
  import opened Text

  // ---- UTF-16 code units (`length` and `charCodeAt`) ----

  predicate CodeUnits(us: seq<int>) { forall i :: 0 <= i < |us| ==> 0 <= us[i] < 0x10000 }

  /** The UTF-16 code units of one character. */
  function Utf16Char(c: char): (r: seq<int>)
    ensures |r| == (if c as int < 0x10000 then 1 else 2) && CodeUnits(r)
  {
    var n := c as int;
    if n < 0x10000 then [n]
    else
      var m := n - 0x10000;
      [0xD800 + m / 0x400, 0xDC00 + m % 0x400]
  }

  /** The UTF-16 code units JavaScript sees in a string. */
  function Utf16(s: string): (r: seq<int>)
    ensures CodeUnits(r) && |r| >= |s|
  {
    if s == [] then [] else Utf16Char(s[0]) + Utf16(s[1..])
  }

  /** Reading a sequence of UTF-16 code units back into characters; `None`
      on an unpaired surrogate. */
  function DecodeUtf16(us: seq<int>): Option<string>
    decreases |us|
  {
    if us == [] then Some("")
    else if 0xD800 <= us[0] < 0xDC00 then
      if |us| >= 2 && 0xDC00 <= us[1] < 0xE000 then
        match DecodeUtf16(us[2..])
        case None => None
        case Some(rest) => Some([(0x10000 + (us[0] - 0xD800) * 0x400 + (us[1] - 0xDC00)) as char] + rest)
      else None
    else if 0 <= us[0] < 0xD800 || 0xE000 <= us[0] < 0x10000 then
      match DecodeUtf16(us[1..])
      case None => None
      case Some(rest) => Some([us[0] as char] + rest)
    else None
  }

  /** The code units of a string determine it: decoding them gives it back. */
  lemma {:induction false} Utf16RoundTrip(s: string)
    ensures DecodeUtf16(Utf16(s)) == Some(s)
  {
    if s != [] {
      Utf16RoundTrip(s[1..]);
      var us := Utf16(s);
      var head := Utf16Char(s[0]);
      assert us == head + Utf16(s[1..]);
      if s[0] as int < 0x10000 {
        assert us[1..] == Utf16(s[1..]);
      } else {
        assert us[2..] == Utf16(s[1..]);
      }
      assert s == [s[0]] + s[1..];
    }
  }

  /** On characters of the Basic Multilingual Plane (the seed string is
      ASCII) there is one code unit per character. */
  lemma {:induction false} Utf16OfBmp(s: string)
    requires forall i :: 0 <= i < |s| ==> s[i] as int < 0x10000
    ensures Utf16(s) == seq(|s|, i requires 0 <= i < |s| => s[i] as int)
  {
    if s != [] {
      Utf16OfBmp(s[1..]);
    }
  }

  // ---- xmur3 ----

  const XMUR3_INIT: bv32 := 1779033703

  /** One round of the xmur3 loop: `imul(h ^ u, 3432918353)`, rotated left
      by 13. */
  function Mix(h: bv32, u: int): bv32
    requires 0 <= u < 0x10000
  {
    var m := (h ^ (u as bv32)) * 3432918353;
    (m << 13) | (m >> 19)
  }

  /** The xmur3 loop from state `h` over the code units `us`. */
  function Absorb(h: bv32, us: seq<int>): bv32
    requires CodeUnits(us)
    decreases |us|
  {
    if us == [] then h else Absorb(Mix(h, us[0]), us[1..])
  }

  /** The hash state after `xmur3(str)` has read `str`; `str.length` enters
      as a 32-bit integer. */
  function Xmur3Seed(us: seq<int>): bv32
    requires CodeUnits(us)
  {
    Absorb(XMUR3_INIT ^ ((|us| % 0x1_0000_0000) as bv32), us)
  }

  /** One call of the closure `xmur3` returns: the state is scrambled and
      the new state is the output. */
  function Finalise(h: bv32): bv32
  {
    var a := (h ^ (h >> 16)) * 2246822507;
    var b := (a ^ (a >> 13)) * 3266489909;
    b ^ (b >> 16)
  }

  /** The closure returned by `xmur3(str)`, with the hash state it captures. */
  class Xmur3 {
    var h: bv32

    constructor (str: string)
      ensures h == Xmur3Seed(Utf16(str))
    {
      var us := Utf16(str);
      var x := XMUR3_INIT ^ ((|us| % 0x1_0000_0000) as bv32);
      var i := 0;
      while i < |us|
        invariant 0 <= i <= |us|
        invariant Absorb(x, us[i..]) == Xmur3Seed(us)
      {
        assert us[i..][1..] == us[i + 1..];
        x := Mix(x, us[i]);
        i := i + 1;
      }
      h := x;
    }

    method Next() returns (r: bv32)
      modifies this
      ensures h == Finalise(old(h)) && r == h
    {
      h := Finalise(h);
      r := h;
    }
  }

  // ---- sfc32 ----

  datatype SfcState = SfcState(a: bv32, b: bv32, c: bv32, d: bv32)

  /** One call of the sfc32 closure: the next state and the 32-bit word
      `t` it returns (as `t / 2^32`). The counter `d` advances by one on
      every call. */
  function SfcStep(s: SfcState): (r: (SfcState, bv32))
    ensures r.0.d == s.d + 1
  {
    var t := s.a + s.b;
    var c := (s.c << 21) | (s.c >> 11);
    var d := s.d + 1;
    var t' := t + d;
    (SfcState(s.b ^ (s.b >> 9), s.c + (s.c << 3), c + t', d), t')
  }

  /** The closure returned by `sfc32(a, b, c, d)`. */
  class Sfc32 {
    var a: bv32
    var b: bv32
    var c: bv32
    var d: bv32

    function State(): SfcState
      reads this
    {
      SfcState(a, b, c, d)
    }

    constructor (a0: bv32, b0: bv32, c0: bv32, d0: bv32)
      ensures State() == SfcState(a0, b0, c0, d0)
    {
      a, b, c, d := a0, b0, c0, d0;
    }

    method Next() returns (t: bv32)
      modifies this
      ensures (State(), t) == SfcStep(old(State()))
    {
      var step := SfcStep(State());
      a, b, c, d := step.0.a, step.0.b, step.0.c, step.0.d;
      t := step.1;
    }
  }

  /** The first word of `seededRand(seed)`: four xmur3 outputs seed sfc32,
      which is drawn once. */
  function DailyWord(seed: string): bv32
  {
    var h1 := Finalise(Xmur3Seed(Utf16(seed)));
    var h2 := Finalise(h1);
    var h3 := Finalise(h2);
    var h4 := Finalise(h3);
    SfcStep(SfcState(h1, h2, h3, h4)).1
  }

  /** `seededRand(seed)()` computed with the two closures, one call at a time. */
  method SeededDraw(seed: string) returns (t: bv32)
    ensures t == DailyWord(seed)
  {
    var hash := new Xmur3(seed);
    var a := hash.Next();
    var b := hash.Next();
    var c := hash.Next();
    var d := hash.Next();
    var gen := new Sfc32(a, b, c, d);
    t := gen.Next();
  }

  // ---- the prompt ----

  const PROMPTS: seq<string> := [
    "Read one paragraph like it\U{2019}s a leaf you\U{2019}re tasting for the first time.",
    "Pick a sentence you love and copy it somewhere. Tiny shrine.",
    "What would the main character smell right now? Be weirdly specific.",
    "Pause after a page and let the scene settle like fog.",
    "Read slower than you think you should. You\U{2019}re allowed.",
    "Find one detail you\U{2019}d miss if you were rushing.",
    "If this book were tea, what kind would it be?",
    "Stop mid-page when you feel \U{201C}oh!\U{201D} and savor it for ten seconds.",
    "Before you start: loosen your jaw. Yes, really.",
    "When you finish: close the book like you\U{2019}re tucking it into a nest."
  ]

  /** `todayKey()`: the local calendar day as `YYYY-MM-DD`. */
  function DayKey(year: nat, month: nat, date: nat): (k: string)
    requires 1 <= month <= 12 && 1 <= date <= 31
    ensures |k| == |Decimal(year)| + 6
  {
    PaddedDigits(month);
    PaddedDigits(date);
    Decimal(year) + "-" + PadStart2(Decimal(month)) + "-" + PadStart2(Decimal(date))
  }

  /** The seed string of the daily prompt. */
  function DailySeed(year: nat, month: nat, date: nat): string
    requires 1 <= month <= 12 && 1 <= date <= 31
  {
    "sloth-reading-nest:" + DayKey(year, month, date)
  }

  /** The number `seededRand` returns for the word `t`: `t / 2^32`, exact in
      double precision since `t < 2^32`. */
  function Fraction(t: bv32): (x: real)
    ensures 0.0 <= x < 1.0
  {
    (t as int) as real / 4294967296.0
  }

  /** `Math.floor(r * PROMPTS.length)` for a draw `r` in `[0, 1)`. */
  function DrawIndex(x: real): (i: nat)
    requires 0.0 <= x < 1.0
    ensures i < |PROMPTS|
    ensures i as real <= x * 10.0 < i as real + 1.0
  {
    (x * 10.0).Floor
  }

  /** The prompt index of a seeded draw, in integer arithmetic (exact, since
      `10 * t < 2^53`); it agrees with the floating-point formula. */
  function PromptIndex(t: bv32): (i: nat)
    ensures i < |PROMPTS|
    ensures i == DrawIndex(Fraction(t))
  {
    (t as int * 10) / 0x1_0000_0000
  }

  /** What `newPrompt(fresh)` throws when it does. */
  datatype Thrown = TypeError(message: string)

  /** `newPrompt(fresh)` as written: when `fresh` is true, `r` is bound to the
      number `Math.random()` and then called as a function, so the "new
      prompt" button throws and the prompt stays as it was. */
  function NewPromptAsWritten(pickAnew: bool, daily: bv32): (r: Result<string, Thrown>)
    ensures !pickAnew ==> r == Ok(PROMPTS[PromptIndex(daily)])
  {
    if pickAnew then Err(TypeError("r is not a function")) else Ok(PROMPTS[PromptIndex(daily)])
  }

  /** The discrepancy: with `pickAnew` set no prompt is ever produced. */
  lemma FreshPromptThrows(daily: bv32)
    ensures forall p :: NewPromptAsWritten(true, daily) != Ok(p)
  {
  }

  /** `newPrompt(fresh)` as intended: `random` is the value `Math.random()`
      draws, used as the draw itself when `fresh` is true (here `pickAnew`). */
  function NewPromptCorrected(pickAnew: bool, random: real, daily: bv32): (p: string)
    requires 0.0 <= random < 1.0
    ensures p in PROMPTS
    ensures !pickAnew ==> p == PROMPTS[PromptIndex(daily)]
    ensures pickAnew ==> p == PROMPTS[DrawIndex(random)]
  {
    PROMPTS[DrawIndex(if pickAnew then random else Fraction(daily))]
  }

  /** The prompt `newPrompt` picks (corrected), drawn with the generators
      for the calendar day `year`-`month`-`date` unless `pickAnew`. */
  method PickPrompt(pickAnew: bool, random: real, year: nat, month: nat, date: nat) returns (p: string)
    requires 0.0 <= random < 1.0 && 1 <= month <= 12 && 1 <= date <= 31
    ensures p == NewPromptCorrected(pickAnew, random, DailyWord(DailySeed(year, month, date)))
  {
    var idx;
    if pickAnew {
      idx := DrawIndex(random);
    } else {
      var t := SeededDraw(DailySeed(year, month, date));
      idx := PromptIndex(t);
    }
    p := PROMPTS[idx];
  }

  /** Every prompt can come from the "new prompt" button. */
  lemma FreshReachesEveryPrompt(k: nat, daily: bv32)
    requires k < |PROMPTS|
    ensures NewPromptCorrected(true, k as real / 10.0, daily) == PROMPTS[k]
  {
  }
}
