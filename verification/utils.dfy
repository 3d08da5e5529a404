/**
 * The pure helpers of the quiz: question selection, the click-answer radius
 * check, badge tiers and their display strings, and the M:SS time format.
 */
module Utils {
  import opened QuizTypes

  function Min(a: int, b: int): int {
    if a <= b then a else b
  }

  /*************************************************************************
   * Question selection
   *************************************************************************/

  /**
   * The questions of `bank` whose difficulty is `difficulty`, in bank order.
   * As a multiset it is exactly the matching part of the bank.
   */
  function FilterByDifficulty(bank: seq<Question>, difficulty: Difficulty): (r: seq<Question>)
    ensures forall q :: multiset(r)[q] == if q.difficulty == difficulty then multiset(bank)[q] else 0
    ensures forall q :: q in r ==> q.difficulty == difficulty
  {
    if |bank| == 0 then []
    else
      assert bank == [bank[0]] + bank[1..];
      var rest := FilterByDifficulty(bank[1..], difficulty);
      if bank[0].difficulty == difficulty then [bank[0]] + rest else rest
  }

  /**
   * A reordering of `s` driven by a stream of random draws: the element at
   * `draws[0] % |s|` goes first and the rest is shuffled by the remaining
   * draws (missing draws count as 0). This stands for sorting a copy of the
   * list with a random comparator; the input list itself is a value and is
   * never changed.
   */
  function Shuffle<T>(s: seq<T>, draws: seq<nat>): (r: seq<T>)
    ensures |r| == |s|
    ensures multiset(r) == multiset(s)
    decreases |s|
  {
    if |s| == 0 then []
    else
      var k := DrawIndex(draws, |s|);
      var rest := s[..k] + s[k + 1..];
      assert multiset(s) == multiset{s[k]} + multiset(rest) by {
        assert s == s[..k] + [s[k]] + s[k + 1..];
      }
      [s[k]] + Shuffle(rest, if |draws| == 0 then [] else draws[1..])
  }

  /** The position the next draw picks among `n` elements: `draws[0] % n`, or 0 when no draw is left. */
  function DrawIndex(draws: seq<nat>, n: nat): (k: nat)
    requires n > 0
    ensures k < n
  {
    if |draws| == 0 then 0 else draws[0] % n
  }

  /**
   * selectQuizQuestions: filter the bank by difficulty, shuffle the matches
   * and keep the first `count`. Fewer matches than `count` give all matches.
   */
  function SelectQuizQuestions(allQuestions: seq<Question>, difficulty: Difficulty, count: nat, draws: seq<nat>): (r: seq<Question>)
    ensures |r| == Min(count, |FilterByDifficulty(allQuestions, difficulty)|)
    ensures forall i :: 0 <= i < |r| ==> r[i].difficulty == difficulty
    ensures multiset(r) <= multiset(FilterByDifficulty(allQuestions, difficulty))
    ensures multiset(r) <= multiset(allQuestions)
  {
    var matching := FilterByDifficulty(allQuestions, difficulty);
    var shuffled := Shuffle(matching, draws);
    var n := Min(count, |shuffled|);
    PrefixSubMultiset(shuffled, n);
    SubMultisetMembers(shuffled[..n], matching);
    shuffled[..n]
  }

  lemma PrefixSubMultiset<T>(s: seq<T>, n: nat)
    requires n <= |s|
    ensures multiset(s[..n]) <= multiset(s)
  {
    assert s == s[..n] + s[n..];
  }

  lemma SubMultisetMembers<T>(a: seq<T>, b: seq<T>)
    requires multiset(a) <= multiset(b)
    ensures forall i :: 0 <= i < |a| ==> a[i] in b
  {
    forall i | 0 <= i < |a|
      ensures a[i] in b
    {
      assert a[i] in multiset(a);
    }
  }

  /** When no more than `count` questions match, the selection holds every one of them. */
  lemma SelectAllWhenFew(allQuestions: seq<Question>, difficulty: Difficulty, count: nat, draws: seq<nat>)
    requires |FilterByDifficulty(allQuestions, difficulty)| <= count
    ensures multiset(SelectQuizQuestions(allQuestions, difficulty, count, draws))
         == multiset(FilterByDifficulty(allQuestions, difficulty))
  {
    var matching := FilterByDifficulty(allQuestions, difficulty);
    var shuffled := Shuffle(matching, draws);
    assert shuffled[..|shuffled|] == shuffled;
  }

  /** Two positions holding the same value make its multiplicity at least two. */
  lemma {:induction false} TwoPositionsCountTwice<T>(s: seq<T>, i: nat, j: nat)
    requires i < j < |s| && s[i] == s[j]
    ensures multiset(s)[s[i]] >= 2
  {
    assert s == s[..j] + s[j..];
    assert s[i] == s[..j][i];
    assert s[j] == s[j..][0];
  }

  /** A value of multiplicity at least two sits at two distinct positions. */
  lemma {:induction false} CountTwiceTwoPositions<T>(s: seq<T>, x: T)
    requires multiset(s)[x] >= 2
    ensures exists i, j :: 0 <= i < j < |s| && s[i] == x && s[j] == x
  {
    assert s == [s[0]] + s[1..];
    if s[0] == x {
      assert x in multiset(s[1..]);
      var j :| 0 <= j < |s[1..]| && s[1..][j] == x;
      assert s[0] == x && s[j + 1] == x;
    } else {
      CountTwiceTwoPositions(s[1..], x);
      var i, j :| 0 <= i < j < |s[1..]| && s[1..][i] == x && s[1..][j] == x;
      assert s[i + 1] == x && s[j + 1] == x;
    }
  }

  /** When the bank's ids are unique, a selection never repeats an id. */
  lemma SelectedIdsDistinct(allQuestions: seq<Question>, difficulty: Difficulty, count: nat, draws: seq<nat>)
    requires DistinctIds(allQuestions)
    ensures DistinctIds(SelectQuizQuestions(allQuestions, difficulty, count, draws))
  {
    var r := SelectQuizQuestions(allQuestions, difficulty, count, draws);
    forall i, j | 0 <= i < j < |r|
      ensures r[i].id != r[j].id
    {
      if r[i].id == r[j].id {
        assert r[i] in multiset(allQuestions) && r[j] in multiset(allQuestions);
        if r[i] == r[j] {
          TwoPositionsCountTwice(r, i, j);
          CountTwiceTwoPositions(allQuestions, r[i]);
          assert false;
        }
      }
    }
  }

  /** Every reordering of `s` is the outcome of some stream of draws. */
  lemma {:induction false} ShuffleReachesEveryPermutation<T>(s: seq<T>, r: seq<T>)
    requires multiset(r) == multiset(s)
    ensures exists draws :: Shuffle(s, draws) == r
    decreases |s|
  {
    if |s| == 0 {
      assert |r| == |multiset(r)| == 0;
      assert Shuffle(s, []) == r;
    } else {
      var k := PermutationHead(s, r);
      var rest := s[..k] + s[k + 1..];
      ShuffleReachesEveryPermutation(rest, r[1..]);
      var tail :| Shuffle(rest, tail) == r[1..];
      PrependDraw(s, k, tail, r);
    }
  }

  /** The head of a reordering sits somewhere in the original, and the tails are reorderings too. */
  lemma PermutationHead<T>(s: seq<T>, r: seq<T>) returns (k: nat)
    requires multiset(r) == multiset(s) && |s| > 0
    ensures 0 < |r| == |s| && k < |s| && s[k] == r[0]
    ensures multiset(r[1..]) == multiset(s[..k] + s[k + 1..])
  {
    assert |r| == |s| by {
      assert |r| == |multiset(r)| == |multiset(s)| == |s|;
    }
    assert r[0] in s by {
      assert r[0] in multiset(r);
    }
    k :| 0 <= k < |s| && s[k] == r[0];
    assert multiset(r[1..]) == multiset(r) - multiset{r[0]} by {
      RemoveAt(r, 0);
      assert r[..0] + r[1..] == r[1..];
    }
    RemoveAt(s, k);
  }

  /** Drawing the position of `r`'s head first, then what reorders the rest into `r`'s tail, gives `r`. */
  lemma PrependDraw<T>(s: seq<T>, k: nat, tail: seq<nat>, r: seq<T>)
    requires k < |s| && 0 < |r| && s[k] == r[0]
    requires Shuffle(s[..k] + s[k + 1..], tail) == r[1..]
    ensures Shuffle(s, [k] + tail) == r
  {
    ShuffleFirstDraw(s, k, tail);
    assert [r[0]] + r[1..] == r;
  }

  /** A first draw `k` below `|s|` puts `s[k]` first and leaves the rest to the other draws. */
  lemma ShuffleFirstDraw<T>(s: seq<T>, k: nat, tail: seq<nat>)
    requires k < |s|
    ensures Shuffle(s, [k] + tail) == [s[k]] + Shuffle(s[..k] + s[k + 1..], tail)
  {
    var draws := [k] + tail;
    assert DrawIndex(draws, |s|) == k by {
      SmallRemainder(k, |s|);
    }
    assert draws[1..] == tail;
  }

  lemma SmallRemainder(k: nat, n: nat)
    requires k < n
    ensures k % n == k
  {
  }

  /** Taking out the element at `k` takes one occurrence of it out of the multiset. */
  lemma RemoveAt<T>(s: seq<T>, k: nat)
    requires k < |s|
    ensures multiset(s[..k] + s[k + 1..]) == multiset(s) - multiset{s[k]}
  {
    assert s == s[..k] + [s[k]] + s[k + 1..];
  }

  /** Some sequence whose multiset is `m`. */
  ghost function SequenceOf<T>(m: multiset<T>): (s: seq<T>)
    ensures multiset(s) == m
    decreases |m|
  {
    if |m| == 0 then []
    else
      var x :| x in m;
      [x] + SequenceOf(m - multiset{x})
  }

  /**
   * The selection is complete for its specification: every list of the
   * right length whose questions come from the matching part of the bank
   * (no more often than there) is what some stream of draws selects.
   */
  lemma SelectReachesEveryDraw(allQuestions: seq<Question>, difficulty: Difficulty, count: nat, r: seq<Question>)
    requires |r| == Min(count, |FilterByDifficulty(allQuestions, difficulty)|)
    requires multiset(r) <= multiset(FilterByDifficulty(allQuestions, difficulty))
    ensures exists draws :: SelectQuizQuestions(allQuestions, difficulty, count, draws) == r
  {
    var matching := FilterByDifficulty(allQuestions, difficulty);
    var rest := SequenceOf(multiset(matching) - multiset(r));
    assert multiset(r + rest) == multiset(matching);
    ShuffleReachesEveryPermutation(matching, r + rest);
    var draws :| Shuffle(matching, draws) == r + rest;
    assert SelectQuizQuestions(allQuestions, difficulty, count, draws) == r by {
      assert SelectQuizQuestions(allQuestions, difficulty, count, draws) == Shuffle(matching, draws)[..|r|];
      assert (r + rest)[..|r|] == r;
    }
  }

  /*************************************************************************
   * Click answers
   *************************************************************************/

  const DEFAULT_RADIUS_KM: real := 100.0

  /** `correctAnswer.radius || 100`: an absent radius and a radius of 0 both give the default. */
  function AllowedRadius(target: Coordinates): (r: real)
    ensures r != 0.0
    ensures target.radius.None? ==> r == DEFAULT_RADIUS_KM
  {
    if target.radius.None? || target.radius.value == 0.0 then DEFAULT_RADIUS_KM else target.radius.value
  }

  /** isClickAnswerCorrect: the click lies within the target's allowed radius, boundary included. */
  function IsClickAnswerCorrect(userClick: Coordinates, correctAnswer: Coordinates, distance: DistanceFn): (ok: bool)
    ensures distance(userClick.Position(), correctAnswer.Position()) == 0.0 ==>
      (ok <==> correctAnswer.radius.None? || correctAnswer.radius.value >= 0.0)
    ensures correctAnswer.radius.None? && distance(userClick.Position(), correctAnswer.Position()) > DEFAULT_RADIUS_KM ==> !ok
  {
    distance(userClick.Position(), correctAnswer.Position()) <= AllowedRadius(correctAnswer)
  }

  /** The acceptance rule in full: the target's radius when given and non-zero, else 100 km, inclusive. */
  lemma ClickAcceptanceRule(userClick: Coordinates, correctAnswer: Coordinates, distance: DistanceFn)
    ensures correctAnswer.radius.Some? && correctAnswer.radius.value != 0.0 ==>
      (IsClickAnswerCorrect(userClick, correctAnswer, distance) <==>
       distance(userClick.Position(), correctAnswer.Position()) <= correctAnswer.radius.value)
    ensures correctAnswer.radius.None? || correctAnswer.radius == Some(0.0) ==>
      (IsClickAnswerCorrect(userClick, correctAnswer, distance) <==>
       distance(userClick.Position(), correctAnswer.Position()) <= 100.0)
  {
  }

  /** A click exactly on the boundary of the allowed radius is accepted. */
  lemma ClickBoundaryInclusive(userClick: Coordinates, correctAnswer: Coordinates, distance: DistanceFn)
    requires distance(userClick.Position(), correctAnswer.Position()) == AllowedRadius(correctAnswer)
    ensures IsClickAnswerCorrect(userClick, correctAnswer, distance)
  {
  }

  /** The radius carried by the click itself plays no part. */
  lemma ClickRadiusIgnored(userClick: Coordinates, radius: Option<real>, correctAnswer: Coordinates, distance: DistanceFn)
    ensures IsClickAnswerCorrect(userClick.(radius := radius), correctAnswer, distance)
         == IsClickAnswerCorrect(userClick, correctAnswer, distance)
  {
  }

  /** A click no farther from the target than an accepted click is accepted too. */
  lemma ClickCloserStillCorrect(nearer: Coordinates, farther: Coordinates, correctAnswer: Coordinates, distance: DistanceFn)
    requires distance(nearer.Position(), correctAnswer.Position()) <= distance(farther.Position(), correctAnswer.Position())
    requires IsClickAnswerCorrect(farther, correctAnswer, distance)
    ensures IsClickAnswerCorrect(nearer, correctAnswer, distance)
  {
  }

  /*************************************************************************
   * Badges
   *************************************************************************/

  /** calculateBadge: tiers checked from the highest down, each threshold inclusive. */
  function CalculateBadge(percentage: real): (badge: Badge)
    ensures badge == Platinum <==> percentage >= 90.0
    ensures badge == Bronze <==> percentage < 60.0
  {
    if percentage >= 90.0 then Platinum
    else if percentage >= 75.0 then Gold
    else if percentage >= 60.0 then Silver
    else Bronze
  }

  /** The order of the tiers, lowest first. */
  function BadgeRank(badge: Badge): nat {
    match badge
    case Bronze => 0
    case Silver => 1
    case Gold => 2
    case Platinum => 3
  }

  /** Each tier holds exactly the percentages of its half-open band. */
  lemma BadgeBands(percentage: real)
    ensures CalculateBadge(percentage) == Platinum <==> 90.0 <= percentage
    ensures CalculateBadge(percentage) == Gold <==> 75.0 <= percentage < 90.0
    ensures CalculateBadge(percentage) == Silver <==> 60.0 <= percentage < 75.0
    ensures CalculateBadge(percentage) == Bronze <==> percentage < 60.0
  {
  }

  /** A higher percentage never earns a lower tier. */
  lemma BadgeMonotone(p: real, q: real)
    requires p <= q
    ensures BadgeRank(CalculateBadge(p)) <= BadgeRank(CalculateBadge(q))
  {
  }

  /** getBadgeEmoji: one emoji per tier. */
  function GetBadgeEmoji(badge: Badge): (emoji: string)
    ensures |emoji| == 1
  {
    match badge
    case Platinum => "\U{1F48E}"
    case Gold => "\U{1F3C6}"
    case Silver => "\U{2B50}"
    case Bronze => "\U{1F949}"
  }

  /** getBadgeLabel: the tier's name followed by " EXPLORER". */
  function GetBadgeLabel(badge: Badge): (name: string)
    ensures |name| > 9 && name[|name| - 9..] == " EXPLORER"
  {
    match badge
    case Platinum => "PLATINUM EXPLORER"
    case Gold => "GOLD EXPLORER"
    case Silver => "SILVER EXPLORER"
    case Bronze => "BRONZE EXPLORER"
  }

  /** Distinct badges are shown with distinct emoji and distinct labels. */
  lemma BadgeDisplayInjective(a: Badge, b: Badge)
    requires a != b
    ensures GetBadgeEmoji(a) != GetBadgeEmoji(b)
    ensures GetBadgeLabel(a) != GetBadgeLabel(b)
  {
  }

  /*************************************************************************
   * Time format
   *************************************************************************/

  /** Rounding toward zero, the rule JavaScript's `%` uses for its quotient. */
  function TruncateTowardZero(x: real): int {
    if x >= 0.0 then x.Floor else -((-x).Floor)
  }

  /** JavaScript's `x % m`: the remainder has the sign of the dividend. */
  function JsRemainder(x: real, m: real): real
    requires m != 0.0
  {
    x - m * TruncateTowardZero(x / m) as real
  }

  predicate IsDigit(c: char) {
    '0' <= c <= '9'
  }

  predicate AllDigits(s: string) {
    forall i :: 0 <= i < |s| ==> IsDigit(s[i])
  }

  function DigitChar(d: nat): char
    requires d < 10
  {
    (48 + d) as char
  }

  function DigitValue(c: char): nat
    requires IsDigit(c)
  {
    c as int - 48
  }

  /** The decimal numeral of `n`, without leading zeros. */
  function NatToDecimal(n: nat): (s: string)
    ensures 1 <= |s| && AllDigits(s)
    ensures n < 10 <==> |s| == 1
    ensures 10 <= n < 100 ==> |s| == 2
  {
    if n < 10 then [DigitChar(n)] else NatToDecimal(n / 10) + [DigitChar(n % 10)]
  }

  /** Number's `toString` on an integer value: a minus sign, then the numeral of the magnitude. */
  function IntToString(i: int): (s: string)
    ensures 1 <= |s| && ':' !in s
    ensures i >= 0 ==> AllDigits(s)
    ensures i < 0 ==> s[0] == '-' && AllDigits(s[1..])
  {
    if i < 0 then "-" + NatToDecimal(-i) else NatToDecimal(i)
  }

  /** `s.padStart(width, fill)`: `fill` repeated on the left up to `width` characters. */
  function PadStart(s: string, width: nat, fill: char): (r: string)
    ensures |r| == if |s| >= width then |s| else width
    ensures r[|r| - |s|..] == s
    ensures forall i :: 0 <= i < |r| - |s| ==> r[i] == fill
  {
    if |s| >= width then s else seq(width - |s|, _ => fill) + s
  }

  /**
   * formatTime: whole minutes (floored), a colon, then the floored remainder
   * of the seconds modulo 60 padded with '0' to two characters.
   */
  function FormatTime(seconds: real): (t: string)
    ensures |t| >= 4
    ensures ':' in t
  {
    var mins := (seconds / 60.0).Floor;
    var secs := JsRemainder(seconds, 60.0).Floor;
    IntToString(mins) + ":" + PadStart(IntToString(secs), 2, '0')
  }

  /** The value of a string of decimal digits; the empty string reads as 0. */
  function DigitsValue(s: string): nat
    requires AllDigits(s)
  {
    if |s| == 0 then 0 else DigitsValue(s[..|s| - 1]) * 10 + DigitValue(s[|s| - 1])
  }

  /** The position of the first occurrence of `c` in `s`. */
  function IndexOf(s: string, c: char): (k: nat)
    requires c in s
    ensures k < |s| && s[k] == c && c !in s[..k]
  {
    if s[0] == c then 0 else 1 + IndexOf(s[1..], c)
  }

  /**
   * Reads an `M:SS` string back as a number of seconds: minutes as digits,
   * a colon, exactly two digits of seconds below 60.
   */
  function ParseTime(t: string): Option<nat>
  {
    if ':' !in t then None
    else
      var k := IndexOf(t, ':');
      var mins, secs := t[..k], t[k + 1..];
      if 1 <= |mins| && AllDigits(mins) && |secs| == 2 && AllDigits(secs) && DigitsValue(secs) < 60
      then Some(60 * DigitsValue(mins) + DigitsValue(secs))
      else None
  }

  lemma {:induction false} DecimalRoundTrip(n: nat)
    ensures DigitsValue(NatToDecimal(n)) == n
    decreases n
  {
    if n >= 10 {
      var s := NatToDecimal(n);
      assert s[..|s| - 1] == NatToDecimal(n / 10);
      DecimalRoundTrip(n / 10);
    }
  }

  lemma {:induction false} LeadingZeroIgnored(s: string)
    requires AllDigits(s)
    ensures AllDigits("0" + s) && DigitsValue("0" + s) == DigitsValue(s)
    decreases |s|
  {
    if |s| > 0 {
      assert ("0" + s)[..|s|] == "0" + s[..|s| - 1];
      LeadingZeroIgnored(s[..|s| - 1]);
    }
  }

  /** For whole, non-negative seconds the floored quotient and the remainder are integer division. */
  lemma WholeSecondsSplit(n: nat)
    ensures (n as real / 60.0).Floor == n / 60
    ensures JsRemainder(n as real, 60.0).Floor == n % 60
  {
    var q, r := n / 60, n % 60;
    assert n as real / 60.0 == q as real + r as real / 60.0;
    assert 0.0 <= r as real / 60.0 < 1.0;
    assert (n as real / 60.0).Floor == q;
  }

  /** For whole, non-negative seconds the two-digit seconds field always has exactly two digits. */
  lemma FormatTimeShape(n: nat)
    ensures FormatTime(n as real) == NatToDecimal(n / 60) + ":" + PadStart(NatToDecimal(n % 60), 2, '0')
    ensures |PadStart(NatToDecimal(n % 60), 2, '0')| == 2
  {
    WholeSecondsSplit(n);
  }

  /** A run of digits, a colon and anything after: the first colon is the one after the digits. */
  lemma ColonAfterDigits(mins: string, secs: string)
    requires AllDigits(mins)
    ensures ':' in mins + ":" + secs
    ensures var t := mins + ":" + secs; IndexOf(t, ':') == |mins| && t[..|mins|] == mins && t[|mins| + 1..] == secs
  {
    var t := mins + ":" + secs;
    assert t[|mins|] == ':';
    assert ':' !in mins by {
      assert forall i :: 0 <= i < |mins| ==> IsDigit(mins[i]);
    }
  }

  /** How ParseTime reads a well-formed `M:SS` string whose fields have the values `m` and `sec`. */
  lemma ParseWellFormed(mins: string, secs: string, m: nat, sec: nat, total: nat)
    requires 1 <= |mins| && AllDigits(mins) && DigitsValue(mins) == m
    requires |secs| == 2 && AllDigits(secs) && DigitsValue(secs) == sec < 60
    requires total == 60 * m + sec
    ensures ParseTime(mins + ":" + secs) == Some(total)
  {
    ColonAfterDigits(mins, secs);
  }

  /** The padded seconds field of a remainder below 60: two digits reading back as the remainder. */
  lemma PaddedSecondsRoundTrip(x: nat)
    requires x < 60
    ensures var p := PadStart(NatToDecimal(x), 2, '0'); |p| == 2 && AllDigits(p) && DigitsValue(p) == x
  {
    var d := NatToDecimal(x);
    DecimalRoundTrip(x);
    if x < 10 {
      assert PadStart(d, 2, '0') == "0" + d;
      LeadingZeroIgnored(d);
    } else {
      assert PadStart(d, 2, '0') == d;
    }
  }

  /** A minutes numeral and a padded seconds field read back as the seconds they stand for. */
  lemma ParseFormattedParts(mins: nat, secs: nat, total: nat)
    requires secs < 60 && total == 60 * mins + secs
    ensures ParseTime(NatToDecimal(mins) + ":" + PadStart(NatToDecimal(secs), 2, '0')) == Some(total)
  {
    DecimalRoundTrip(mins);
    PaddedSecondsRoundTrip(secs);
    ParseWellFormed(NatToDecimal(mins), PadStart(NatToDecimal(secs), 2, '0'), mins, secs, total);
  }

  /** Reading a formatted time back gives the seconds that were formatted. */
  lemma FormatTimeRoundTrip(n: nat)
    ensures ParseTime(FormatTime(n as real)) == Some(n)
  {
    FormatTimeShape(n);
    ParseMinutesSeconds(FormatTime(n as real), n);
  }

  /** A string made of the minutes numeral and the padded seconds of `n` reads back as `n`. */
  lemma ParseMinutesSeconds(t: string, n: nat)
    requires t == NatToDecimal(n / 60) + ":" + PadStart(NatToDecimal(n % 60), 2, '0')
    ensures ParseTime(t) == Some(n)
  {
    MinutesAndSeconds(n);
    ParseFormattedParts(n / 60, n % 60, n);
  }

  /** Whole seconds are the minutes times 60 plus the remaining seconds. */
  lemma MinutesAndSeconds(n: nat)
    ensures 60 * (n / 60) + n % 60 == n
  {
  }
}
