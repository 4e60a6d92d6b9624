/**
  The bot's configuration constants: the four canonical suit symbols, the
  "missing suit -> predicted suit" mapping, the display glyphs, and the rule that
  turns a channel id read from the environment into Telegram's negative form.
 */
module Config {
  import opened Wrappers
  import opened Text

  const Spade: string := "\U{2660}"
  const Heart: string := "\U{2665}"
  const Diamond: string := "\U{2666}"
  const Club: string := "\U{2663}"

  /** ALL_SUITS, in the order the bot scans them. */
  const AllSuits: seq<string> := [Spade, Heart, Diamond, Club]

  /** SUIT_MAPPING: same-colour suits are swapped (black with black, red with red). */
  const SuitMapping: map<string, string> :=
    map[Spade := Club, Club := Spade, Heart := Diamond, Diamond := Heart]

  /** SUIT_DISPLAY: the emoji form of each suit (the heart is shown as U+2764). */
  const SuitDisplay: map<string, string> :=
    map[Spade := "\U{2660}\U{FE0F}", Heart := "\U{2764}\U{FE0F}",
        Diamond := "\U{2666}\U{FE0F}", Club := "\U{2663}\U{FE0F}"]

  /** ALL_SUITS as a set. */
  const SuitSet: set<string> := set s | s in AllSuits

  predicate IsSuit(s: string) {
    s in AllSuits
  }

  predicate IsBlack(s: string) {
    s == Spade || s == Club
  }

  /** The four canonical suits are distinct one-character strings. */
  lemma AllSuitsDistinct()
    ensures |AllSuits| == 4
    ensures forall i, j | 0 <= i < j < |AllSuits| :: AllSuits[i] != AllSuits[j]
    ensures forall i | 0 <= i < |AllSuits| :: |AllSuits[i]| == 1
  {
  }

  /** SUIT_MAPPING and SUIT_DISPLAY are both defined on exactly the four suits. */
  lemma MappingDomains()
    ensures SuitMapping.Keys == set s | s in AllSuits
    ensures SuitDisplay.Keys == SuitMapping.Keys
    ensures forall s | s in SuitMapping :: IsSuit(SuitMapping[s])
  {
  }

  /** SUIT_MAPPING is an involution with no fixed point that keeps the colour. */
  lemma MappingInvolution(s: string)
    requires IsSuit(s)
    ensures s in SuitMapping && SuitMapping[s] in SuitMapping
    ensures SuitMapping[SuitMapping[s]] == s
    ensures SuitMapping[s] != s
    ensures IsBlack(SuitMapping[s]) == IsBlack(s)
  {
  }

  /** Python `int(value)` restricted to an optional sign followed by decimal digits; None is a ValueError. */
  function ParseInt(value: string): (r: Option<int>)
    ensures r.Some? ==> |value| > 0
  {
    if |value| > 0 && (value[0] == '-' || value[0] == '+') then
      var digits := value[1..];
      if |digits| > 0 && AllDigits(digits) then
        var magnitude: int := DecimalValue(digits);
        Some(if value[0] == '-' then -magnitude else magnitude)
      else None
    else if |value| > 0 && AllDigits(value) then Some(DecimalValue(value))
    else None
  }

  /** Python `str(id)` for any integer: a minus sign before the digits of a negative id. */
  function IntString(id: int): string {
    if id < 0 then "-" + DecimalString(-id) else DecimalString(id)
  }

  /** The conditional of parse_channel_id: a positive id of ten or more digits is negated. */
  function ToChannelId(id: int): int {
    if id > 0 && |IntString(id)| >= 10 then -id else id
  }

  /** `os.getenv(name) or default`: the environment value unless it is absent or empty. */
  function ChosenValue(envValue: Option<string>, default: string): string {
    if envValue.Some? && envValue.value != "" then envValue.value else default
  }

  /**
    parse_channel_id: the chosen value parsed as an integer and then converted;
    None exactly when `int` would raise. The conversion keeps the magnitude of the
    parsed id and always yields an id below 1,000,000,000.
   */
  function ParseChannelId(envValue: Option<string>, default: string): (r: Option<int>)
    ensures r.None? <==> ParseInt(ChosenValue(envValue, default)).None?
    ensures r.Some? ==> var id := ParseInt(ChosenValue(envValue, default)).value;
      r.value == ToChannelId(id) && (r.value == id || r.value == -id)
    ensures r.Some? ==> r.value < 1000000000
  {
    match ParseInt(ChosenValue(envValue, default))
    case None => None
    case Some(id) =>
      ToChannelIdNegatesLongIds(id);
      Some(ToChannelId(id))
  }

  /** An absent or empty environment value falls back to the default string. */
  lemma ParseChannelIdDefault(envValue: Option<string>, default: string)
    requires envValue.None? || envValue == Some("")
    ensures ParseChannelId(envValue, default) == ParseChannelId(Some(default), default)
  {
  }

  /** Parsing the printed form of an integer gives it back. */
  lemma ParseIntRoundTrip(id: int)
    ensures ParseInt(IntString(id)) == Some(id)
  {
    if id < 0 {
      DecimalRoundTrip(-id);
      assert IntString(id)[1..] == DecimalString(-id);
    } else {
      DecimalRoundTrip(id);
    }
  }

  /** The conversion negates exactly the ids that are at least 1,000,000,000. */
  lemma ToChannelIdNegatesLongIds(id: int)
    ensures id >= 1000000000 ==> ToChannelId(id) == -id
    ensures id < 1000000000 ==> ToChannelId(id) == id
  {
    if id > 0 {
      DecimalLength(id, 9);
      assert Pow10(9) == 1000000000;
    }
  }

  /** Converting an already converted id changes nothing. */
  lemma ToChannelIdIdempotent(id: int)
    ensures ToChannelId(ToChannelId(id)) == ToChannelId(id)
  {
    ToChannelIdNegatesLongIds(id);
    ToChannelIdNegatesLongIds(ToChannelId(id));
  }

  /** With no environment value, the printed default id is read back and converted. */
  lemma ParseChannelIdOfDefault(id: int)
    ensures ParseChannelId(None, IntString(id)) == Some(ToChannelId(id))
  {
    ParseIntRoundTrip(id);
  }

  /** A set environment value holding the printed form of an id is read back and converted. */
  lemma ParseChannelIdOfEnv(id: int, default: string)
    ensures ParseChannelId(Some(IntString(id)), default) == Some(ToChannelId(id))
  {
    ParseIntRoundTrip(id);
  }
}
