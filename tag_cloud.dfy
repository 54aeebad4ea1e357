/**
 * The computational helpers of the tag cloud (`src/components/blog/TagCloud.tsx`): the
 * 32-bit string hash that fixes each word's rotation, the `#` prefix that is put on a tag
 * and taken off again, and the count range that scales font sizes. The layout and the
 * drawing are not modelled.
 */
module TagCloud {
  import opened Wrappers
  import opened Text
  import opened Blog

  const TwoTo31 := 0x8000_0000
  const TwoTo32 := 0x1_0000_0000

  /** ECMAScript ToInt32: the integer congruent to `x` modulo 2^32 in [-2^31, 2^31). */
  function ToInt32(x: int): (r: int)
    ensures -TwoTo31 <= r < TwoTo31
    ensures (r - x) % TwoTo32 == 0
  {
    (x + TwoTo31) % TwoTo32 - TwoTo31
  }

  /** Two congruent integers wrap to the same 32-bit value. */
  lemma ToInt32Congruent(x: int, y: int)
    requires (x - y) % TwoTo32 == 0
    ensures ToInt32(x) == ToInt32(y)
  {
    var q := (x - y) / TwoTo32;
    assert x == y + q * TwoTo32;
    var a := (x + TwoTo31) / TwoTo32;
    var b := (y + TwoTo31) / TwoTo32;
    assert (x + TwoTo31) - a * TwoTo32 == (y + TwoTo31) - (a - q) * TwoTo32;
    DivisionUnique(y + TwoTo31, a - q, ToInt32(x) + TwoTo31);
  }

  lemma DivisionUnique(n: int, q: int, r: int)
    requires 0 <= r < TwoTo32 && n == q * TwoTo32 + r
    ensures n % TwoTo32 == r
  {
  }

  lemma MultipleOfModulus(x: int, m: int)
    requires x % TwoTo32 == 0
    ensures (m * x) % TwoTo32 == 0
  {
    var q := x / TwoTo32;
    assert m * x == (m * q) * TwoTo32;
    DivisionUnique(m * x, m * q, 0);
  }

  function Abs(x: int): (r: int)
    ensures r >= 0 && (r == x || r == -x)
  {
    if x < 0 then -x else x
  }

  // ---------------------------------------------------------------- UTF-16 code units

  /** `charCodeAt` reads UTF-16 code units: a character above U+FFFF is a surrogate pair. */
  function CharCodeUnits(c: char): (units: seq<int>)
    ensures 1 <= |units| <= 2
    ensures forall k :: 0 <= k < |units| ==> 0 <= units[k] < 0x1_0000
    ensures |units| == 1 <==> (c as int) < 0x1_0000
    ensures |units| == 1 ==> units[0] == c as int
    ensures |units| == 2 ==>
      (0xD800 <= units[0] < 0xDC00 <= units[1] < 0xE000
       && 0x1_0000 + (units[0] - 0xD800) * 0x400 + (units[1] - 0xDC00) == c as int)
  {
    var v := c as int;
    if v < 0x1_0000 then [v]
    else [0xD800 + (v - 0x1_0000) / 0x400, 0xDC00 + (v - 0x1_0000) % 0x400]
  }

  function CodeUnits(s: string): (units: seq<int>)
    ensures |s| <= |units| <= 2 * |s|
    ensures forall k :: 0 <= k < |units| ==> 0 <= units[k] < 0x1_0000
  {
    if s == [] then [] else CodeUnits(s[..|s| - 1]) + CharCodeUnits(s[|s| - 1])
  }

  // ---------------------------------------------------------------- hashString

  /** The hash after folding in `units`: `h := ToInt32(31 * h + c)` from `h = 0`. */
  function HashFold(units: seq<int>): (h: int)
    ensures -TwoTo31 <= h < TwoTo31
    decreases |units|
  {
    if units == [] then 0 else ToInt32(31 * HashFold(units[..|units| - 1]) + units[|units| - 1])
  }

  /** The polynomial the hash wraps: the sum of c_i * 31^(n-1-i), without any wrapping. */
  function Polynomial(units: seq<int>): int
    decreases |units|
  {
    if units == [] then 0 else 31 * Polynomial(units[..|units| - 1]) + units[|units| - 1]
  }

  /** One loop step: `((h << 5) - h) + c` followed by `h & h` is `ToInt32(31 * h + c)`. */
  lemma HashStep(h: int, c: int)
    ensures ToInt32(ToInt32(h * 32) - h + c) == ToInt32(31 * h + c)
  {
    ToInt32Congruent(ToInt32(h * 32) - h + c, 31 * h + c);
  }

  /** Wrapping at every step gives the same result as wrapping the polynomial once. */
  lemma {:induction false} HashFoldIsPolynomial(units: seq<int>)
    ensures HashFold(units) == ToInt32(Polynomial(units))
    decreases |units|
  {
    if units != [] {
      var prefix := units[..|units| - 1];
      var c := units[|units| - 1];
      HashFoldIsPolynomial(prefix);
      var p := Polynomial(prefix);
      MultipleOfModulus(ToInt32(p) - p, 31);
      assert 31 * (ToInt32(p) - p) == (31 * ToInt32(p) + c) - (31 * p + c);
      ToInt32Congruent(31 * ToInt32(p) + c, 31 * p + c);
    }
  }

  /** The value `hashString(text)` returns. */
  function HashValue(text: string): (h: int)
    ensures 0 <= h <= TwoTo31
  {
    Abs(HashFold(CodeUnits(text)))
  }

  /** `hashString(str)`: the loop over the code units, then the absolute value. */
  method HashString(str: string) returns (h: int)
    ensures h == HashValue(str)
    ensures h == Abs(ToInt32(Polynomial(CodeUnits(str))))
    ensures 0 <= h <= TwoTo31
    ensures str == [] ==> h == 0
  {
    var units := CodeUnits(str);
    var hash := 0;
    for i := 0 to |units|
      invariant hash == HashFold(units[..i])
    {
      var c := units[i];
      assert units[..i + 1][..i] == units[..i];
      HashStep(hash, c);
      hash := ((ToInt32(hash * 32)) - hash) + c;
      hash := ToInt32(hash);
    }
    assert units[..|units|] == units;
    HashFoldIsPolynomial(units);
    h := Abs(hash);
  }

  // ---------------------------------------------------------------- rotation

  const Rotations: seq<int> := [0, 0, 0, -45, 45, 0, -45, 45]

  function RotationIndex(text: string): (k: int)
    ensures 0 <= k < |Rotations|
    ensures (HashValue(text) - k) % 8 == 0
  {
    HashValue(text) % |Rotations|
  }

  /** The angle of a word: one of three, chosen by the hash of its text alone. */
  function Rotation(text: string): (degrees: int)
    ensures degrees == 0 || degrees == -45 || degrees == 45
    ensures degrees == 0 <==> RotationIndex(text) in {0, 1, 2, 5}
    ensures degrees == -45 <==> RotationIndex(text) in {3, 6}
    ensures degrees == 45 <==> RotationIndex(text) in {4, 7}
  {
    Rotations[RotationIndex(text)]
  }

  // ---------------------------------------------------------------- the '#' prefix

  /** The text a tag is drawn with. */
  function WordText(tag: string): (text: string)
    ensures |text| == |tag| + 1 && text[0] == '#' && text[1..] == tag
  {
    "#" + tag
  }

  /** `text.replace('#', '')`: the first '#' removed, if any. */
  function StripHash(text: string): (r: string)
    ensures '#' !in text ==> r == text
    ensures '#' in text ==> |r| == |text| - 1
    ensures '#' in text ==> exists k :: (0 <= k < |text| && text[k] == '#' && '#' !in text[..k]
      && r == text[..k] + text[k + 1..])
  {
    var k := IndexOf(text, '#');
    if k == |text| then text else text[..k] + text[k + 1..]
  }

  /** Prefixing and stripping give back the tag, even one that itself contains '#'. */
  lemma StripHashRoundTrip(tag: string)
    ensures StripHash(WordText(tag)) == tag
  {
    var text := WordText(tag);
    assert IndexOf(text, '#') == 0;
    assert text[..0] + text[1..] == tag;
  }

  /** A drawn word is highlighted exactly when its own tag is selected. */
  lemma SelectionOfWord(selectedTags: seq<string>, tag: string)
    ensures StripHash(WordText(tag)) in selectedTags <==> tag in selectedTags
    ensures StripHash(WordText(tag)) == tag
  {
    StripHashRoundTrip(tag);
  }

  // ---------------------------------------------------------------- font-size range

  function MaxCount(tags: seq<TagFrequency>): (m: int)
    requires tags != []
    ensures exists i :: 0 <= i < |tags| && tags[i].count == m
    ensures forall i :: 0 <= i < |tags| ==> tags[i].count <= m
  {
    if |tags| == 1 then tags[0].count
    else
      var rest := MaxCount(tags[1..]);
      assert forall i :: 1 <= i < |tags| ==> tags[i] == tags[1..][i - 1];
      if tags[0].count >= rest then tags[0].count else rest
  }

  function MinCount(tags: seq<TagFrequency>): (m: int)
    requires tags != []
    ensures exists i :: 0 <= i < |tags| && tags[i].count == m
    ensures forall i :: 0 <= i < |tags| ==> m <= tags[i].count
  {
    if |tags| == 1 then tags[0].count
    else
      var rest := MinCount(tags[1..]);
      assert forall i :: 1 <= i < |tags| ==> tags[i] == tags[1..][i - 1];
      if tags[0].count <= rest then tags[0].count else rest
  }

  /** `maxCount - minCount || 1`: the spread of counts, or 1 when all counts are equal. */
  function CountRange(maxCount: int, minCount: int): (range: int)
    requires minCount <= maxCount
    ensures range >= 1
    ensures maxCount > minCount ==> range == maxCount - minCount
  {
    if maxCount - minCount == 0 then 1 else maxCount - minCount
  }

  /**
   * A word before layout. The font size `16 + scale^0.6 * 64` is floating point and not
   * modelled; the word keeps its scale as the fraction `scaleNumerator / scaleDenominator`.
   */
  datatype CloudWord = CloudWord(text: string, scaleNumerator: int, scaleDenominator: int, count: int)

  /** The words handed to the layout; `None` when there are no tags and no layout is made. */
  function PrepareWords(tags: seq<TagFrequency>): (words: Option<seq<CloudWord>>)
    ensures words.None? <==> tags == []
    ensures words.Some? ==> |words.value| == |tags|
    ensures words.Some? ==> forall i :: 0 <= i < |tags| ==>
      (words.value[i].text == WordText(tags[i].tag) && words.value[i].count == tags[i].count
       && words.value[i].scaleDenominator >= 1
       && 0 <= words.value[i].scaleNumerator <= words.value[i].scaleDenominator)
  {
    if tags == [] then None
    else
      var maxCount := MaxCount(tags);
      var minCount := MinCount(tags);
      var range := CountRange(maxCount, minCount);
      Some(seq(|tags|, i requires 0 <= i < |tags| =>
        CloudWord(WordText(tags[i].tag), tags[i].count - minCount, range, tags[i].count)))
  }

  /**
   * Scales are comparable across the words and follow the counts: a larger count never
   * gets a smaller scale, the smallest count gets scale 0 and, when counts differ, the
   * largest gets scale 1.
   */
  lemma ScaleFollowsCounts(tags: seq<TagFrequency>, i: int, j: int)
    requires 0 <= i < |tags| && 0 <= j < |tags|
    ensures PrepareWords(tags).Some?
    ensures PrepareWords(tags).value[i].scaleDenominator == PrepareWords(tags).value[j].scaleDenominator
    ensures tags[i].count <= tags[j].count ==>
      PrepareWords(tags).value[i].scaleNumerator <= PrepareWords(tags).value[j].scaleNumerator
    ensures tags[i].count == MinCount(tags) ==> PrepareWords(tags).value[i].scaleNumerator == 0
    ensures tags[i].count == MaxCount(tags) && MaxCount(tags) > MinCount(tags) ==>
      PrepareWords(tags).value[i].scaleNumerator == PrepareWords(tags).value[i].scaleDenominator
  {
  }
}
