/**
  Reading a finalized result message of the source feed: is it final, which
  game number does it carry, what are its parenthesised result groups, and which
  suits does a group show once variant glyphs are folded to the canonical ones.
 */
module Analysis {
  import opened Wrappers
  import opened Text
  import opened Config

  /** The in-progress marker (alarm clock) and the two outcome markers (check mark, beginner badge). */
  const InProgressMark: char := '\U{23F0}'
  const SuccessMark: char := '\U{2705}'
  const FinalMark: char := '\U{1F530}'

  /** is_message_finalized: never while the in-progress marker is shown, otherwise when an outcome marker is. */
  predicate IsMessageFinalized(message: string) {
    if InProgressMark in message then false
    else SuccessMark in message || FinalMark in message
  }

  /**
    is_message_finalized stated with Python substring tests on the one-character
    markers: false whenever the alarm clock occurs, otherwise true exactly when a
    check mark or a beginner badge occurs.
   */
  lemma FinalizedBySubstrings(message: string)
    ensures Contains(message, [InProgressMark]) ==> !IsMessageFinalized(message)
    ensures !Contains(message, [InProgressMark]) ==>
      (IsMessageFinalized(message) <==> Contains(message, [SuccessMark]) || Contains(message, [FinalMark]))
  {
    ContainsOneChar(message, [InProgressMark]);
    ContainsOneChar(message, [SuccessMark]);
    ContainsOneChar(message, [FinalMark]);
  }

  /**
    The ASCII characters matched by the regular-expression class `\s` in a str
    pattern: space, tab, line feed, carriage return, vertical tab, form feed and
    the four separators U+001C to U+001F.
   */
  predicate IsSpace(c: char) {
    c == ' ' || c == '\t' || c == '\n' || c == '\r' || c == '\U{0B}' || c == '\U{0C}'
    || ('\U{1C}' <= c <= '\U{1F}')
  }

  /** The end of the longest run of spaces starting at `i` (what greedy `\s*` consumes). */
  function SkipSpaces(s: string, i: nat): (j: nat)
    requires i <= |s|
    ensures i <= j <= |s|
    ensures j == |s| || !IsSpace(s[j])
    decreases |s| - i
  {
    if i < |s| && IsSpace(s[i]) then SkipSpaces(s, i + 1) else i
  }

  /** The run of spaces from `i` ends where the first non-space character stands. */
  lemma {:induction false} SkipSpacesTo(s: string, i: nat, j: nat)
    requires i <= j <= |s|
    requires forall k | i <= k < j :: IsSpace(s[k])
    requires j == |s| || !IsSpace(s[j])
    ensures SkipSpaces(s, i) == j
    decreases j - i
  {
    if i < j {
      SkipSpacesTo(s, i + 1, j);
    }
  }

  /** The end of the longest run of digits starting at `i` (what greedy `\d+` consumes). */
  function SkipDigits(s: string, i: nat): (j: nat)
    requires i <= |s|
    ensures i <= j <= |s|
    ensures AllDigits(s[i..j])
    ensures j == |s| || !IsDigit(s[j])
    decreases |s| - i
  {
    if i < |s| && IsDigit(s[i]) then
      var j := SkipDigits(s, i + 1);
      assert s[i..j] == [s[i]] + s[i + 1..j];
      j
    else i
  }

  /** The run of digits from `i` ends where the first non-digit character stands. */
  lemma {:induction false} SkipDigitsTo(s: string, i: nat, j: nat)
    requires i <= j <= |s|
    requires AllDigits(s[i..j])
    requires j == |s| || !IsDigit(s[j])
    ensures SkipDigits(s, i) == j
    decreases j - i
  {
    if i < j {
      assert IsDigit(s[i..j][0]);
      assert s[i + 1..j] == s[i..j][1..];
      SkipDigitsTo(s, i + 1, j);
    }
  }

  /**
    The pattern `#N\s*(\d+)\.?`, case-insensitive, tried at position `i`: the value
    of its digit group, or None when it does not match there. Backtracking cannot
    help: a space is never a digit, and the optional period always matches.
   */
  function GameTagAt(s: string, i: nat): Option<nat> {
    if i + 2 <= |s| && s[i] == '#' && (s[i + 1] == 'N' || s[i + 1] == 'n') then
      var start := SkipSpaces(s, i + 2);
      var end := SkipDigits(s, start);
      if start < end then Some(DecimalValue(s[start..end])) else None
    else None
  }

  /** `re.search` from position `i` on: the leftmost match wins. */
  function SearchGameTag(s: string, i: nat): Option<nat>
    requires i <= |s|
    decreases |s| - i
  {
    if i == |s| then None
    else if GameTagAt(s, i).Some? then GameTagAt(s, i)
    else SearchGameTag(s, i + 1)
  }

  /** The pattern matches at no position from `i` up to, not including, `k`. */
  predicate NoTagBetween(s: string, i: nat, k: nat) {
    forall j: nat | i <= j < k :: GameTagAt(s, j).None?
  }

  /** The search fails exactly when the pattern matches at no position from `i` on. */
  lemma {:induction false} SearchGameTagNone(s: string, i: nat)
    requires i <= |s|
    ensures SearchGameTag(s, i).None? <==> forall k | i <= k < |s| :: GameTagAt(s, k).None?
    decreases |s| - i
  {
    if i < |s| {
      SearchGameTagNone(s, i + 1);
    }
  }

  /** A successful search found the match at a position `k` before which the pattern matches nowhere. */
  lemma {:induction false} SearchGameTagWitness(s: string, i: nat) returns (k: nat)
    requires i <= |s| && SearchGameTag(s, i).Some?
    ensures i <= k < |s| && GameTagAt(s, k) == SearchGameTag(s, i) && NoTagBetween(s, i, k)
    decreases |s| - i
  {
    if GameTagAt(s, i).Some? {
      k := i;
    } else {
      k := SearchGameTagWitness(s, i + 1);
      forall j: nat | i <= j < k ensures GameTagAt(s, j).None? {
        if j > i {
          assert i + 1 <= j < k;
        }
      }
    }
  }

  /** The search returns the match at the first position where the pattern matches, if any. */
  lemma SearchGameTagFirst(s: string, i: nat)
    requires i <= |s|
    ensures SearchGameTag(s, i).None? <==> forall k | i <= k < |s| :: GameTagAt(s, k).None?
    ensures SearchGameTag(s, i).Some? ==> exists k | i <= k < |s| ::
      GameTagAt(s, k) == SearchGameTag(s, i) && NoTagBetween(s, i, k)
  {
    SearchGameTagNone(s, i);
    if SearchGameTag(s, i).Some? {
      var k := SearchGameTagWitness(s, i);
    }
  }

  /**
    extract_game_number: the value of the first `#N<digits>` tag, or None when the
    message has none.
   */
  function ExtractGameNumber(message: string): (r: Option<nat>)
    ensures r.None? <==> forall k | 0 <= k < |message| :: GameTagAt(message, k).None?
    ensures r.Some? ==> exists k | 0 <= k < |message| ::
      GameTagAt(message, k) == r && NoTagBetween(message, 0, k)
  {
    SearchGameTagFirst(message, 0);
    SearchGameTag(message, 0)
  }

  /**
    A tag written as `#N` (or `#n`), optional spaces and the decimal form of `n`,
    after text without `#` and before a non-digit, is read back as `n`.
   */
  lemma GameNumberRoundTrip(prefix: string, letter: char, spaces: string, n: nat, rest: string)
    requires '#' !in prefix
    requires letter == 'N' || letter == 'n'
    requires forall k | 0 <= k < |spaces| :: IsSpace(spaces[k])
    requires rest == [] || !IsDigit(rest[0])
    ensures ExtractGameNumber(prefix + ['#', letter] + spaces + DecimalString(n) + rest) == Some(n)
  {
    var s := prefix + ['#', letter] + spaces + DecimalString(n) + rest;
    var p := |prefix|;
    WrittenTagAt(prefix, letter, spaces, n, rest);
    NoTagInPrefix(prefix, s[p..]);
    assert prefix + s[p..] == s;
    FirstTagIsRead(s, 0, p, n);
  }

  /** When the first position from `i` on where the pattern matches is `p`, the search returns its value. */
  lemma {:induction false} FirstTagIsRead(s: string, i: nat, p: nat, n: nat)
    requires i <= p < |s| && GameTagAt(s, p) == Some(n)
    requires forall k | i <= k < p :: GameTagAt(s, k).None?
    ensures SearchGameTag(s, i) == Some(n)
    decreases p - i
  {
    if i < p {
      FirstTagIsRead(s, i + 1, p, n);
    }
  }

  /** The tag written at the end of `prefix` reads back as `n`. */
  lemma WrittenTagAt(prefix: string, letter: char, spaces: string, n: nat, rest: string)
    requires letter == 'N' || letter == 'n'
    requires forall k | 0 <= k < |spaces| :: IsSpace(spaces[k])
    requires rest == [] || !IsDigit(rest[0])
    ensures |prefix| < |prefix + ['#', letter] + spaces + DecimalString(n) + rest|
    ensures GameTagAt(prefix + ['#', letter] + spaces + DecimalString(n) + rest, |prefix|) == Some(n)
  {
    var digits := DecimalString(n);
    var s := prefix + ['#', letter] + spaces + digits + rest;
    var p := |prefix|;
    var start := p + 2 + |spaces|;
    var end := start + |digits|;
    assert s[p] == '#' && s[p + 1] == letter;
    assert s[start..end] == digits;
    assert forall k | p + 2 <= k < start :: s[k] == spaces[k - (p + 2)];
    assert s[start] == digits[0];
    SkipSpacesTo(s, p + 2, start);
    assert end < |s| ==> s[end] == rest[0];
    SkipDigitsTo(s, start, end);
    DecimalRoundTrip(n);
  }

  /** No tag starts inside text that has no `#`. */
  lemma NoTagInPrefix(prefix: string, tail: string)
    requires '#' !in prefix
    ensures forall k | 0 <= k < |prefix| :: GameTagAt(prefix + tail, k).None?
  {
    forall k | 0 <= k < |prefix|
      ensures GameTagAt(prefix + tail, k).None?
    {
      assert (prefix + tail)[k] == prefix[k];
    }
  }

  /** The index of the first `)` in `s`, or `|s|` when there is none. */
  function IndexOfClose(s: string): (j: nat)
    ensures j <= |s|
    ensures j < |s| ==> s[j] == ')'
    ensures ')' !in s[..j]
    decreases |s|
  {
    if |s| == 0 || s[0] == ')' then 0
    else
      var j := 1 + IndexOfClose(s[1..]);
      assert s[..j] == [s[0]] + s[1..][..j - 1];
      j
  }

  /**
    extract_parentheses_groups (`re.findall` of `\(([^)]*)\)`): the text between
    each `(` and the first `)` after it, scanning on after that `)`; a `(` with no
    `)` after it yields nothing.
   */
  function ExtractParenthesesGroups(message: string): (groups: seq<string>)
    ensures forall k | 0 <= k < |groups| :: ')' !in groups[k]
    decreases |message|
  {
    if |message| == 0 then []
    else
      var close := IndexOfClose(message[1..]);
      if message[0] == '(' && close < |message| - 1 then
        assert message[1..1 + close] == message[1..][..close];
        [message[1..1 + close]] + ExtractParenthesesGroups(message[close + 2..])
      else ExtractParenthesesGroups(message[1..])
  }

  /** Text without `(` before a message contributes no group and does not shift the others. */
  lemma {:induction false} GroupsSkipText(text: string, message: string)
    requires '(' !in text
    ensures ExtractParenthesesGroups(text + message) == ExtractParenthesesGroups(message)
    decreases |text|
  {
    if |text| > 0 {
      var m := text + message;
      assert m[0] == text[0] && m[0] != '(';
      assert m[1..] == text[1..] + message;
      assert '(' !in text[1..];
      assert ExtractParenthesesGroups(m) == ExtractParenthesesGroups(m[1..]);
      GroupsSkipText(text[1..], message);
    } else {
      assert text + message == message;
    }
  }

  /** A bracketed group is returned first, ahead of the groups of the rest of the message. */
  lemma GroupsOfBracketed(group: string, rest: string)
    requires ')' !in group
    ensures ExtractParenthesesGroups("(" + group + ")" + rest) == [group] + ExtractParenthesesGroups(rest)
  {
    var m := "(" + group + ")" + rest;
    assert m[1..][..|group|] == group;
    assert m[1..][|group|] == ')';
    assert IndexOfClose(m[1..]) == |group|;
    assert m[1..1 + |group|] == group;
    assert m[|group| + 2..] == rest;
  }

  /** A `(` with no `)` after it yields no group: a message without `)` has none. */
  lemma {:induction false} GroupsNeedClose(message: string)
    requires ')' !in message
    ensures ExtractParenthesesGroups(message) == []
    decreases |message|
  {
    if |message| > 0 {
      assert ')' !in message[1..];
      assert IndexOfClose(message[1..]) == |message| - 1;
      GroupsNeedClose(message[1..]);
    }
  }

  /** Groups come back left to right: two bracketed groups separated by text without `(`. */
  lemma GroupsLeftToRight(g1: string, between: string, g2: string, rest: string)
    requires ')' !in g1 && ')' !in g2 && '(' !in between
    ensures ExtractParenthesesGroups("(" + g1 + ")" + between + "(" + g2 + ")" + rest)
         == [g1, g2] + ExtractParenthesesGroups(rest)
  {
    var tail := "(" + g2 + ")" + rest;
    assert "(" + g1 + ")" + between + "(" + g2 + ")" + rest == "(" + g1 + ")" + (between + tail);
    GroupsOfBracketed(g1, between + tail);
    GroupsSkipText(between, tail);
    GroupsOfBracketed(g2, rest);
  }

  /** The variant glyphs folded by normalize_suits: red heart with and without variation selector, and each suit with one. */
  const RedHeartEmoji: string := "\U{2764}\U{FE0F}"
  const RedHeart: string := "\U{2764}"
  const HeartEmoji: string := "\U{2665}\U{FE0F}"
  const SpadeEmoji: string := "\U{2660}\U{FE0F}"
  const DiamondEmoji: string := "\U{2666}\U{FE0F}"
  const ClubEmoji: string := "\U{2663}\U{FE0F}"

  /** normalize_suits: the six replacements, applied in the source's order. */
  function NormalizeSuits(group: string): string {
    var n1 := Replace(group, RedHeartEmoji, Heart);
    var n2 := Replace(n1, RedHeart, Heart);
    var n3 := Replace(n2, HeartEmoji, Heart);
    var n4 := Replace(n3, SpadeEmoji, Spade);
    var n5 := Replace(n4, DiamondEmoji, Diamond);
    Replace(n5, ClubEmoji, Club)
  }

  /**
    After normalisation a canonical suit symbol is present exactly when it was
    present before, or, for the heart, when a red heart (U+2764) was.
   */
  lemma NormalizedSuitPresence(group: string, suit: string)
    requires IsSuit(suit)
    ensures suit[0] in NormalizeSuits(group) <==> suit[0] in group || (suit == Heart && RedHeart[0] in group)
  {
    var n1 := Replace(group, RedHeartEmoji, Heart);
    var n2 := Replace(n1, RedHeart, Heart);
    var n3 := Replace(n2, HeartEmoji, Heart);
    var n4 := Replace(n3, SpadeEmoji, Spade);
    var n5 := Replace(n4, DiamondEmoji, Diamond);
    var c := suit[0];
    var red := RedHeart[0];
    ReplaceCharMembership(group, RedHeartEmoji, Heart, c);
    ReplaceCharMembership(n1, RedHeart, Heart, c);
    ReplaceCharMembership(n2, HeartEmoji, Heart, c);
    ReplaceCharMembership(n3, SpadeEmoji, Spade, c);
    ReplaceCharMembership(n4, DiamondEmoji, Diamond, c);
    ReplaceCharMembership(n5, ClubEmoji, Club, c);
    if suit == Heart {
      ContainsOneChar(n1, RedHeart);
      ReplaceCharMembership(group, RedHeartEmoji, Heart, red);
      if Contains(group, RedHeartEmoji) {
        ContainsCharsOf(group, RedHeartEmoji, red);
      } else {
        ReplaceWithoutOccurrence(group, RedHeartEmoji, Heart);
      }
    }
  }

  /** `[c]` when `c` occurs in `normalized`, else nothing. */
  function Kept(c: string, normalized: string): seq<string> {
    if Contains(normalized, c) then [c] else []
  }

  /** The suits of `candidates` (kept in their order) that occur in `normalized`. */
  function SuitsOccurring(candidates: seq<string>, normalized: string): (r: seq<string>)
    ensures |r| <= |candidates|
  {
    if candidates == [] then []
    else Kept(candidates[0], normalized) + SuitsOccurring(candidates[1..], normalized)
  }

  /** Filtering a candidate list keeps or drops its head, then filters the rest. */
  lemma SuitsOccurringStep(c: string, rest: seq<string>, normalized: string)
    ensures SuitsOccurring([c] + rest, normalized) == Kept(c, normalized) + SuitsOccurring(rest, normalized)
  {
    assert ([c] + rest)[0] == c;
    assert ([c] + rest)[1..] == rest;
  }

  /** Filtering four candidates, one at a time. */
  lemma SuitsOccurringFour(normalized: string, w: string, x: string, y: string, z: string)
    ensures SuitsOccurring([w, x, y, z], normalized)
         == Kept(w, normalized) + Kept(x, normalized) + Kept(y, normalized) + Kept(z, normalized)
  {
    SuitsOccurringStep(z, [], normalized);
    assert [z] + [] == [z];
    SuitsOccurringStep(y, [z], normalized);
    assert [y] + [z] == [y, z];
    SuitsOccurringStep(x, [y, z], normalized);
    assert [x] + [y, z] == [x, y, z];
    SuitsOccurringStep(w, [x, y, z], normalized);
    assert [w] + [x, y, z] == [w, x, y, z];
  }

  /**
    get_suits_in_group: the canonical suits occurring in the normalised group,
    in ALL_SUITS order.
   */
  function GetSuitsInGroup(group: string): (r: seq<string>)
    ensures |r| <= 4
    ensures forall x :: x in r <==> IsSuit(x) && Contains(NormalizeSuits(group), x)
  {
    var normalized := NormalizeSuits(group);
    SuitsOccurringFour(normalized, Spade, Heart, Diamond, Club);
    SuitsOccurring(AllSuits, normalized)
  }

  /** Whether the raw group shows `suit` in any of its accepted spellings. */
  predicate Shows(group: string, suit: string)
    requires IsSuit(suit)
  {
    suit[0] in group || (suit == Heart && RedHeart[0] in group)
  }

  function ShownAs(group: string, suit: string): seq<string>
    requires IsSuit(suit)
  {
    if Shows(group, suit) then [suit] else []
  }

  /** Membership of a canonical suit in the normalised group, stated on the raw group. */
  lemma NormalizedContainsIffShows(group: string, suit: string)
    requires IsSuit(suit)
    ensures Contains(NormalizeSuits(group), suit) <==> Shows(group, suit)
  {
    ContainsOneChar(NormalizeSuits(group), suit);
    NormalizedSuitPresence(group, suit);
  }

  /**
    The suits of a group, stated on the raw text: spade, heart, diamond, club in
    that order, each once, each exactly when the group shows it.
   */
  lemma SuitsInGroupExplicit(group: string)
    ensures GetSuitsInGroup(group)
         == ShownAs(group, Spade) + ShownAs(group, Heart) + ShownAs(group, Diamond) + ShownAs(group, Club)
  {
    var n := NormalizeSuits(group);
    NormalizedContainsIffShows(group, Spade);
    NormalizedContainsIffShows(group, Heart);
    NormalizedContainsIffShows(group, Diamond);
    NormalizedContainsIffShows(group, Club);
    SuitsOccurringFour(n, Spade, Heart, Diamond, Club);
  }

  /** The test computed by has_suit_in_group: some canonical suit occurs in both normalised strings. */
  predicate SharesSuit(group: string, target: string) {
    exists i | 0 <= i < |AllSuits| ::
      Contains(NormalizeSuits(target), AllSuits[i]) && Contains(NormalizeSuits(group), AllSuits[i])
  }

  /** has_suit_in_group: scans ALL_SUITS and stops at the first suit present in both strings. */
  method HasSuitInGroup(group: string, target: string) returns (found: bool)
    ensures found <==> SharesSuit(group, target)
  {
    var normalized := NormalizeSuits(group);
    var targetNormalized := NormalizeSuits(target);
    for i := 0 to |AllSuits|
      invariant forall k | 0 <= k < i ::
        !(Contains(targetNormalized, AllSuits[k]) && Contains(normalized, AllSuits[k]))
    {
      var suit := AllSuits[i];
      if Contains(targetNormalized, suit) && Contains(normalized, suit) {
        return true;
      }
    }
    return false;
  }

  /** A canonical suit is left as it is by normalisation. */
  lemma NormalizeCanonical(suit: string)
    requires IsSuit(suit)
    ensures NormalizeSuits(suit) == suit
  {
    ReplaceWithoutOccurrence(suit, RedHeartEmoji, Heart);
    ContainsOneChar(suit, RedHeart);
    ReplaceWithoutOccurrence(suit, RedHeart, Heart);
    ReplaceWithoutOccurrence(suit, HeartEmoji, Heart);
    ReplaceWithoutOccurrence(suit, SpadeEmoji, Spade);
    ReplaceWithoutOccurrence(suit, DiamondEmoji, Diamond);
    ReplaceWithoutOccurrence(suit, ClubEmoji, Club);
  }

  /** For a canonical target, has_suit_in_group agrees with get_suits_in_group. */
  lemma SharesSuitIffInGroup(group: string, target: string)
    requires IsSuit(target)
    ensures SharesSuit(group, target) <==> target in GetSuitsInGroup(group)
  {
    NormalizeCanonical(target);
    forall i | 0 <= i < |AllSuits|
      ensures Contains(target, AllSuits[i]) <==> AllSuits[i] == target
    {
      ContainsOneChar(target, AllSuits[i]);
    }
    var k :| 0 <= k < |AllSuits| && AllSuits[k] == target;
    assert Contains(NormalizeSuits(target), AllSuits[k]);
  }

  /** get_predicted_suit: the mapped suit, or the argument itself when it is not a key of SUIT_MAPPING. */
  function GetPredictedSuit(missing: string): (predicted: string)
    ensures IsSuit(missing) ==> IsSuit(predicted) && predicted != missing && IsBlack(predicted) == IsBlack(missing)
    ensures !IsSuit(missing) ==> predicted == missing
  {
    if missing in SuitMapping then SuitMapping[missing] else missing
  }

  /** Predicting from a predicted suit gives back the original suit. */
  lemma PredictedSuitInvolution(suit: string)
    requires IsSuit(suit)
    ensures GetPredictedSuit(GetPredictedSuit(suit)) == suit
  {
    MappingInvolution(suit);
  }
}
