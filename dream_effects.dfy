/** The value-level parts of src/led_ble/led_ble.py that decide whether a
    device is a "Dream" controller and how its effects are named: the
    `DREAM_EFFECTS` table ("Effect 1" .. "Effect 255" for modes 0 .. 254),
    the `dream` and `effect` properties, `_effect_to_pattern`, and the
    seven-byte preset frame a Dream controller takes. */
module DreamEffects {
  import opened Wrappers
  import opened Bytes

  // ---------------------------------------------------------------------
  // Decimal rendering, as `f"{n}"` writes an integer

  function DigitChar(d: nat): (c: char)
    requires d < 10
  {
    ('0' as int + d) as char
  }

  predicate IsDigit(c: char) { '0' <= c <= '9' }

  function DigitValue(c: char): (d: nat)
    requires IsDigit(c)
  {
    (c as int) - ('0' as int)
  }

  /** The decimal digits of `n`, without leading zeros. */
  function NatToString(n: nat): (s: string)
    ensures |s| >= 1 && forall i :: 0 <= i < |s| ==> IsDigit(s[i])
    decreases n
  {
    if n < 10 then [DigitChar(n)] else NatToString(n / 10) + [DigitChar(n % 10)]
  }

  /** Python's `str(n)` for an integer. */
  function IntToString(n: int): (s: string)
    ensures |s| >= 1
    ensures n >= 0 ==> s == NatToString(n)
    ensures s[0] == '-' <==> n < 0
  {
    if n < 0 then "-" + NatToString(-n) else NatToString(n)
  }

  /** Reading a string of decimal digits back as a number. */
  function ParseDigits(s: string): (n: nat)
    requires forall i :: 0 <= i < |s| ==> IsDigit(s[i])
  {
    if s == [] then 0 else ParseDigits(s[..|s| - 1]) * 10 + DigitValue(s[|s| - 1])
  }

  /** Decimal rendering is undone by reading the digits back. */
  lemma {:induction false} ParseNatToString(n: nat)
    ensures ParseDigits(NatToString(n)) == n
    decreases n
  {
    var s := NatToString(n);
    if n >= 10 {
      var prefix := NatToString(n / 10);
      assert s == prefix + [DigitChar(n % 10)];
      assert s[..|s| - 1] == prefix;
      ParseNatToString(n / 10);
    }
  }

  /** Different numbers render differently. */
  lemma NatToStringInjective(a: nat, b: nat)
    requires NatToString(a) == NatToString(b)
    ensures a == b
  {
    ParseNatToString(a);
    ParseNatToString(b);
  }

  // ---------------------------------------------------------------------
  // DREAM_EFFECTS

  /** The effect name `f"Effect {i + 1}"`. */
  function EffectName(i: int): (name: string)
    ensures |name| > 7 && name[..7] == "Effect "
  {
    "Effect " + IntToString(i + 1)
  }

  /** Strings that share a prefix and are equal agree after it. */
  lemma PrefixCancel(p: string, a: string, b: string)
    requires p + a == p + b
    ensures a == b
  {
    assert a == (p + a)[|p|..];
    assert b == (p + b)[|p|..];
  }

  /** Distinct modes in 0..254 have distinct names, so the comprehension
      below is a well-defined map. */
  lemma EffectNamesDiffer(i: nat, j: nat)
    requires EffectName(i) == EffectName(j)
    ensures i == j
  {
    assert EffectName(i) == "Effect " + NatToString(i + 1);
    assert EffectName(j) == "Effect " + NatToString(j + 1);
    PrefixCancel("Effect ", NatToString(i + 1), NatToString(j + 1));
    NatToStringInjective(i + 1, j + 1);
  }

  lemma EffectNameInjective()
    ensures forall i, j :: 0 <= i < 255 && 0 <= j < 255 && EffectName(i) == EffectName(j) ==> i == j
  {
    forall i, j | 0 <= i < 255 && 0 <= j < 255 && EffectName(i) == EffectName(j)
      ensures i == j
    {
      EffectNamesDiffer(i, j);
    }
  }

  /** `DREAM_EFFECTS = {f"Effect {i + 1}": i for i in range(0, 255)}`: the
      table holds exactly the names of modes 0..254, each mapped back to its
      mode. */
  function DreamEffectTable(): (table: map<string, int>)
    ensures forall i :: 0 <= i < 255 ==> EffectName(i) in table && table[EffectName(i)] == i
    ensures forall name :: name in table ==> exists i :: 0 <= i < 255 && name == EffectName(i)
  {
    EffectNameInjective();
    map i | 0 <= i < 255 :: EffectName(i) := i
  }

  // ---------------------------------------------------------------------
  // dream, effect, _effect_to_pattern

  /** The `dream` property: model 0x10, or an advertised local name that
      starts with "Dream". `localName` is `None` when there is no advertisement
      data or it carries no local name. */
  function IsDream(modelNum: int, localName: Option<string>): (dream: bool)
    ensures dream <==> modelNum == 0x10 ||
                       (localName.Some? && |localName.value| >= 5 && localName.value[..5] == "Dream")
  {
    modelNum == 0x10 || (localName.Some? && "Dream" <= localName.value)
  }

  /** The `effect` property: a Dream controller running a mode (preset
      pattern 0) reports "Effect m+1"; otherwise the preset pattern's entry in
      flux_led's `EFFECT_ID_NAME`, if any. */
  function CurrentEffect(dream: bool, presetPattern: int, mode: int, effectIdName: map<int, string>): (e: Option<string>)
    ensures dream && presetPattern == 0 && 0 <= mode < 255 ==>
              e.Some? && e.value in DreamEffectTable() && DreamEffectTable()[e.value] == mode
    ensures !(dream && presetPattern == 0) ==>
              (e.Some? <==> presetPattern in effectIdName) && (e.Some? ==> e.value == effectIdName[presetPattern])
  {
    if dream && presetPattern == 0 then Some(EffectName(mode))
    else if presetPattern in effectIdName then Some(effectIdName[presetPattern])
    else None
  }

  /** `_effect_to_pattern`: Dream controllers look the name up in
      `DREAM_EFFECTS` and raise `ValueError` for any other name; other
      controllers defer to flux_led's `PresetPattern.str_to_val`, given here
      as `strToVal` (its `ValueError` is an `Err` with the message). */
  function EffectToPattern(dream: bool, effect: string, strToVal: string -> Result<int, string>): (r: Result<int, string>)
    ensures dream ==> (r.Ok? <==> effect in DreamEffectTable())
    ensures dream && r.Err? ==> r.error == "Effect " + effect + " is not valid"
    ensures !dream ==> r == strToVal(effect)
  {
    if dream then
      if effect !in DreamEffectTable() then Err("Effect " + effect + " is not valid")
      else Ok(DreamEffectTable()[effect])
    else strToVal(effect)
  }

  /** For a Dream controller running mode m in 0..254, the effect it reports
      names m, and converting that name back gives m. */
  lemma DreamEffectRoundTrip(mode: int, effectIdName: map<int, string>, strToVal: string -> Result<int, string>)
    requires 0 <= mode < 255
    ensures CurrentEffect(true, 0, mode, effectIdName) == Some(EffectName(mode))
    ensures EffectToPattern(true, EffectName(mode), strToVal) == Ok(mode)
  {
  }

  /** The name of mode 255. */
  lemma EffectName255()
    ensures EffectName(255) == "Effect 256"
  {
  }

  /** Mode 255, which a status frame can carry, is reported as "Effect 256",
      a name `_effect_to_pattern` rejects. */
  lemma DreamModeOutsideTable(strToVal: string -> Result<int, string>)
    ensures CurrentEffect(true, 0, 255, map[]) == Some("Effect 256")
    ensures EffectToPattern(true, "Effect 256", strToVal).Err?
  {
    EffectName255();
    if "Effect 256" in DreamEffectTable() {
      var i :| 0 <= i < 255 && "Effect 256" == EffectName(i);
      EffectNamesDiffer(i, 255);
      assert false;
    }
  }

  // ---------------------------------------------------------------------
  // The Dream branch of _generate_preset_pattern

  /** Python's `int(x * 255 / 100)`: scale a percentage to 0..255, truncating
      toward zero. For percentage inputs the floating-point quotient is exact
      enough that its truncation equals the integer one; for inputs beyond
      about 2^53 / 255 the two may differ, which changes only the value a
      `NotAByte` error reports. */
  function PercentTo255(x: int): (r: int)
    ensures 0 <= x <= 100 ==> 0 <= r <= 255
    ensures x == 100 ==> r == 255
  {
    if x >= 0 then x * 255 / 100 else -((-x) * 255 / 100)
  }

  /** The Dream preset frame `9E 00 pattern speed' brightness' 00 E9`, with
      speed and brightness rescaled from percent to 0..255. `bytearray`
      rejects the first element, in list order, that is not a byte. */
  function DreamPresetFrame(pattern: int, speed: int, brightness: int): (r: Result<seq<Byte>, ByteError>)
    ensures r.Ok? <==> IsByte(pattern) && IsByte(PercentTo255(speed)) && IsByte(PercentTo255(brightness))
    ensures r.Ok? ==>
      r.value == [0x9E, 0x00, pattern, PercentTo255(speed), PercentTo255(brightness), 0x00, 0xE9]
    ensures !IsByte(pattern) ==> r == Err(ByteOutOfRange(pattern))
    ensures 0 <= speed <= 100 && 0 <= brightness <= 100 ==> (r.Ok? <==> IsByte(pattern))
  {
    var s := PercentTo255(speed);
    var b := PercentTo255(brightness);
    if !IsByte(pattern) then Err(ByteOutOfRange(pattern))
    else if !IsByte(s) then Err(ByteOutOfRange(s))
    else if !IsByte(b) then Err(ByteOutOfRange(b))
    else Ok([0x9E, 0x00, pattern, s, b, 0x00, 0xE9])
  }
}
