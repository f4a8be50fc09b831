/** Day 1: elves carrying food, grouped by blank lines; the elf carrying the
    most calories and the calories of the top three. */
module CalorieCounting {
  import opened Wrappers

  /** An elf: its 1-based id and the calorie value of each food item it carries. */
  datatype Elf = Elf(id: nat, foodCarried: seq<nat>)

  /** A line of the input that is not a valid calorie value. */
  datatype InputError = InvalidCalorieValue(line: string)

  // ---------------------------------------------------------------- sums

  /** Sum of a sequence, folded from the left starting at 0. */
  function Sum(s: seq<nat>): nat {
    if s == [] then 0 else Sum(s[..|s| - 1]) + s[|s| - 1]
  }

  lemma {:induction false} SumAppend(a: seq<nat>, b: seq<nat>)
    ensures Sum(a + b) == Sum(a) + Sum(b)
    decreases |b|
  {
    if b == [] {
      assert a + b == a;
    } else {
      assert (a + b)[..|a + b| - 1] == a + b[..|b| - 1];
      SumAppend(a, b[..|b| - 1]);
    }
  }

  /** A sum of naturals is at least each of its terms. */
  lemma {:induction false} SumBoundsTerms(s: seq<nat>)
    ensures forall i | 0 <= i < |s| :: s[i] <= Sum(s)
  {
    if s != [] {
      SumBoundsTerms(s[..|s| - 1]);
      assert forall i | 0 <= i < |s| - 1 :: s[i] == s[..|s| - 1][i];
    }
  }

  /** Elf::total_calories_carried: the sum of the calorie values it carries. */
  function TotalCaloriesCarried(e: Elf): (r: nat)
    ensures e.foodCarried == [] ==> r == 0
    ensures forall i | 0 <= i < |e.foodCarried| :: e.foodCarried[i] <= r
  {
    SumBoundsTerms(e.foodCarried);
    Sum(e.foodCarried)
  }

  /** The total of each elf, in order. */
  function Totals(elves: seq<Elf>): (t: seq<nat>)
    ensures |t| == |elves|
  {
    seq(|elves|, i requires 0 <= i < |elves| => TotalCaloriesCarried(elves[i]))
  }

  // ---------------------------------------------------------------- maxima

  /** Iterator::max_by_key over values: the index of a maximum, where a later
      element that equals the running maximum replaces it. */
  function LastMaxIndex(s: seq<nat>): (k: nat)
    requires |s| > 0
    ensures k < |s|
  {
    if |s| == 1 then 0
    else
      var best := LastMaxIndex(s[..|s| - 1]);
      if s[best] <= s[|s| - 1] then |s| - 1 else best
  }

  /** No value exceeds the one at the index found, and every value after it
      is smaller. */
  lemma {:induction false} LastMaxIndexSpec(s: seq<nat>)
    requires |s| > 0
    ensures forall j | 0 <= j < |s| :: s[j] <= s[LastMaxIndex(s)]
    ensures forall j | LastMaxIndex(s) < j < |s| :: s[j] < s[LastMaxIndex(s)]
  {
    if |s| > 1 {
      var init := s[..|s| - 1];
      LastMaxIndexSpec(init);
      assert forall j | 0 <= j < |init| :: s[j] == init[j];
    }
  }

  /** The sum of the k largest values: take a largest one, remove it, repeat. */
  function SumOfLargest(s: seq<nat>, k: nat): nat
    decreases k
  {
    if k == 0 || s == [] then 0
    else
      var m := LastMaxIndex(s);
      s[m] + SumOfLargest(s[..m] + s[m + 1..], k - 1)
  }

  /** When there are at most k values, the k largest are all of them. */
  lemma {:induction false} SumOfLargestOfFew(s: seq<nat>, k: nat)
    requires |s| <= k
    ensures SumOfLargest(s, k) == Sum(s)
    decreases k
  {
    if s != [] {
      var m := LastMaxIndex(s);
      SumOfLargestOfFew(s[..m] + s[m + 1..], k - 1);
      assert s == s[..m] + [s[m]] + s[m + 1..];
      SumAppend(s[..m] + [s[m]], s[m + 1..]);
      SumAppend(s[..m], [s[m]]);
      SumAppend(s[..m], s[m + 1..]);
      assert Sum([s[m]]) == s[m] by { assert [s[m]][..0] == []; }
    }
  }

  ghost predicate IsDescending(d: seq<nat>) {
    forall i, j | 0 <= i < j < |d| :: d[i] >= d[j]
  }

  function Min(a: nat, b: nat): nat {
    if a <= b then a else b
  }

  lemma SumCons(x: nat, t: seq<nat>)
    ensures Sum([x] + t) == x + Sum(t)
  {
    SumAppend([x], t);
    assert [x][..0] == [];
  }

  /** The first element of a descending rearrangement of s is the largest of s. */
  lemma FirstOfDescendingIsLargest(d: seq<nat>, s: seq<nat>)
    requires IsDescending(d) && multiset(d) == multiset(s) && s != []
    ensures d != [] && d[0] == s[LastMaxIndex(s)]
  {
    var m := LastMaxIndex(s);
    LastMaxIndexSpec(s);
    assert s[m] in multiset(d);
    var i :| 0 <= i < |d| && d[i] == s[m];
    assert d[0] in multiset(s);
    var j :| 0 <= j < |s| && s[j] == d[0];
  }

  /** Removing the element at m removes one occurrence of it from the multiset. */
  lemma MultisetRemoveAt(s: seq<nat>, m: nat)
    requires m < |s|
    ensures multiset(s[..m] + s[m + 1..]) == multiset(s) - multiset{s[m]}
  {
    assert s == s[..m] + [s[m]] + s[m + 1..];
  }

  /** Removing the same value from two rearrangements of each other leaves
      rearrangements of each other. */
  lemma RemoveSameElement(d: seq<nat>, s: seq<nat>, m: nat)
    requires multiset(d) == multiset(s) && d != [] && m < |s| && d[0] == s[m]
    ensures multiset(d[1..]) == multiset(s[..m] + s[m + 1..])
  {
    MultisetRemoveAt(s, m);
    MultisetRemoveFirst(d);
  }

  lemma MultisetRemoveFirst(d: seq<nat>)
    requires d != []
    ensures multiset(d[1..]) == multiset(d) - multiset{d[0]}
  {
    assert d == [d[0]] + d[1..];
  }

  lemma DescendingTail(d: seq<nat>)
    requires IsDescending(d) && d != []
    ensures IsDescending(d[1..])
  {
    forall i, j | 0 <= i < j < |d| - 1 ensures d[1..][i] >= d[1..][j] {
      assert d[1..][i] == d[i + 1] && d[1..][j] == d[j + 1];
    }
  }

  /** The sum of the first k elements is the first one plus the sum of the
      next k - 1. */
  lemma PrefixSumCons(d: seq<nat>, k: nat)
    requires d != [] && k > 0
    ensures Sum(d[..Min(k, |d|)]) == d[0] + Sum(d[1..][..Min(k - 1, |d| - 1)])
  {
    var t := d[1..][..Min(k - 1, |d| - 1)];
    assert d[..Min(k, |d|)] == [d[0]] + t;
    SumCons(d[0], t);
  }

  /** Any descending rearrangement of s has the sum of the k largest values of
      s as the sum of its first k elements. */
  lemma {:induction false} SortedPrefixSum(d: seq<nat>, s: seq<nat>, k: nat)
    requires IsDescending(d) && multiset(d) == multiset(s)
    ensures Sum(d[..Min(k, |d|)]) == SumOfLargest(s, k)
    decreases k
  {
    assert |d| == |multiset(d)| == |multiset(s)| == |s|;
    if k == 0 || s == [] {
      assert d[..Min(k, |d|)] == [];
    } else {
      var m := LastMaxIndex(s);
      var rest := s[..m] + s[m + 1..];
      var tail := d[1..];
      FirstOfDescendingIsLargest(d, s);
      RemoveSameElement(d, s, m);
      DescendingTail(d);
      SortedPrefixSum(tail, rest, k - 1);
      PrefixSumCons(d, k);
    }
  }

  // ---------------------------------------------------------------- sorting

  /** Sorts the values from largest to smallest, in place (the order among
      equal values is not observable in the values). */
  method SortDescending(a: array<nat>)
    modifies a
    ensures IsDescending(a[..])
    ensures multiset(a[..]) == multiset(old(a[..]))
  {
    var i := 0;
    while i < a.Length
      invariant 0 <= i <= a.Length
      invariant forall p, q | 0 <= p < q < i :: a[p] >= a[q]
      invariant forall p, q | 0 <= p < i <= q < a.Length :: a[p] >= a[q]
      invariant multiset(a[..]) == multiset(old(a[..]))
    {
      var m := IndexOfLargestFrom(a, i);
      a[i], a[m] := a[m], a[i];
      i := i + 1;
    }
  }

  /** The index of a largest value among a[from..]. */
  method IndexOfLargestFrom(a: array<nat>, from: nat) returns (m: nat)
    requires from < a.Length
    ensures from <= m < a.Length
    ensures forall q | from <= q < a.Length :: a[q] <= a[m]
  {
    m := from;
    var j := from + 1;
    while j < a.Length
      invariant from <= m < a.Length && from < j <= a.Length
      invariant forall q | from <= q < j :: a[q] <= a[m]
    {
      if a[j] > a[m] {
        m := j;
      }
      j := j + 1;
    }
  }

  // ---------------------------------------------------------------- the group

  /** ElfGroup: the elves in the order they were added. */
  class ElfGroup {
    var elves: seq<Elf>

    /** Ids are 1, 2, ..., n in insertion order. */
    ghost predicate Valid()
      reads this
    {
      forall i | 0 <= i < |elves| :: elves[i].id == i + 1
    }

    constructor ()
      ensures Valid() && elves == []
    {
      elves := [];
    }

    /** Appends one elf whose id is the number of elves so far plus one. */
    method AddElf(foodCarried: seq<nat>)
      modifies this
      ensures elves == old(elves) + [Elf(|old(elves)| + 1, foodCarried)]
      ensures old(Valid()) ==> Valid()
    {
      var newId := |elves| + 1;
      elves := elves + [Elf(newId, foodCarried)];
    }

    /** None for an empty group; otherwise an elf whose total no elf exceeds,
        and no elf after it equals. */
    function ElfWithMostCalories(): (r: Option<Elf>)
      reads this
      ensures r == None <==> elves == []
      ensures r.Some? ==>
        exists k | 0 <= k < |elves| ::
          && elves[k] == r.value
          && (forall j | 0 <= j < |elves| ::
                TotalCaloriesCarried(elves[j]) <= TotalCaloriesCarried(r.value))
          && (forall j | k < j < |elves| ::
                TotalCaloriesCarried(elves[j]) < TotalCaloriesCarried(r.value))
    {
      if elves == [] then None
      else
        var totals := Totals(elves);
        var k := LastMaxIndex(totals);
        LastMaxIndexSpec(totals);
        assert forall j | 0 <= j < |elves| :: totals[j] == TotalCaloriesCarried(elves[j]);
        Some(elves[k])
    }

    /** The sum of the three largest totals (of all of them when there are
        fewer than three): the totals sorted from largest, the first three summed. */
    method Top3ElvesCalories() returns (r: nat)
      ensures r == SumOfLargest(Totals(elves), 3)
    {
      var calories := new nat[|elves|];
      for i := 0 to |elves|
        invariant forall j | 0 <= j < i :: calories[j] == TotalCaloriesCarried(elves[j])
      {
        calories[i] := TotalCaloriesCarried(elves[i]);
      }
      assert calories[..] == Totals(elves);
      SortDescending(calories);
      ghost var sorted := calories[..];
      r := 0;
      var taken := 0;
      while taken < 3 && taken < calories.Length
        invariant taken <= 3 && taken <= calories.Length
        invariant calories[..] == sorted
        invariant r == Sum(calories[..taken])
      {
        assert calories[..taken + 1] == calories[..taken] + [calories[taken]];
        SumAppend(calories[..taken], [calories[taken]]);
        assert Sum([calories[taken]]) == calories[taken] by {
          assert [calories[taken]][..0] == [];
        }
        r := r + calories[taken];
        taken := taken + 1;
      }
      assert taken == Min(3, calories.Length);
      SortedPrefixSum(calories[..], Totals(elves), 3);
    }
  }

  /** With at most three elves, the top three are all of them (0 for none). */
  lemma Top3OfFewElves(elves: seq<Elf>)
    requires |elves| <= 3
    ensures SumOfLargest(Totals(elves), 3) == Sum(Totals(elves))
    ensures elves == [] ==> SumOfLargest(Totals(elves), 3) == 0
  {
    SumOfLargestOfFew(Totals(elves), 3);
  }

  // ---------------------------------------------------------------- input

  const U64_LIMIT: nat := 0x1_0000_0000_0000_0000

  predicate IsDigits(s: string) {
    forall i | 0 <= i < |s| :: '0' <= s[i] <= '9'
  }

  /** The value of a string of decimal digits, most significant first. */
  function DigitsValue(s: string): nat
    requires IsDigits(s)
  {
    if s == [] then 0
    else 10 * DigitsValue(s[..|s| - 1]) + (s[|s| - 1] as int - '0' as int)
  }

  /** `str::parse::<u64>`: an optional '+', then one or more ASCII digits
      whose value fits in 64 bits. */
  function ParseU64(s: string): (r: Option<nat>)
    ensures r.Some? ==> r.value < U64_LIMIT
    ensures s == [] ==> r == None
  {
    var digits := if |s| > 0 && s[0] == '+' then s[1..] else s;
    if digits != [] && IsDigits(digits) && DigitsValue(digits) < U64_LIMIT
    then Some(DigitsValue(digits))
    else None
  }

  /** The decimal representation of n, without sign or leading zeros. */
  function DecimalString(n: nat): (s: string)
    ensures s != [] && IsDigits(s)
  {
    var digit := ('0' as int + n % 10) as char;
    if n < 10 then [digit] else DecimalString(n / 10) + [digit]
  }

  lemma {:induction false} DigitsValueOfDecimalString(n: nat)
    ensures DigitsValue(DecimalString(n)) == n
  {
    if n >= 10 {
      var s := DecimalString(n);
      assert s[..|s| - 1] == DecimalString(n / 10);
      DigitsValueOfDecimalString(n / 10);
    }
  }

  /** Every 64-bit value reads back from its decimal representation. */
  lemma ParseU64OfDecimalString(n: nat)
    requires n < U64_LIMIT
    ensures ParseU64(DecimalString(n)) == Some(n)
  {
    DigitsValueOfDecimalString(n);
  }

  /** The input split at its blank lines: one more segment than there are blank
      lines, the last one being what follows the last blank line. */
  function Segments(lines: seq<string>): (segs: seq<seq<string>>)
    ensures |segs| >= 1
  {
    if lines == [] then [[]]
    else
      var prev := Segments(lines[..|lines| - 1]);
      var line := lines[|lines| - 1];
      if line == "" then prev + [[]]
      else prev[..|prev| - 1] + [prev[|prev| - 1] + [line]]
  }

  /** The segments joined back with one blank line between each pair. */
  function JoinWithBlankLines(segs: seq<seq<string>>): seq<string>
    requires |segs| >= 1
  {
    if |segs| == 1 then segs[0]
    else JoinWithBlankLines(segs[..|segs| - 1]) + [""] + segs[|segs| - 1]
  }

  /** Joining one more segment adds a blank line and that segment. */
  lemma JoinSnoc(segs: seq<seq<string>>, t: seq<string>)
    requires |segs| >= 1
    ensures JoinWithBlankLines(segs + [t]) == JoinWithBlankLines(segs) + [""] + t
  {
    assert (segs + [t])[..|segs|] == segs;
  }

  /** Extending the last segment by a line extends the joined lines by it. */
  lemma JoinExtendLast(segs: seq<seq<string>>, line: string)
    requires |segs| >= 1
    ensures var n := |segs|;
      JoinWithBlankLines(segs[..n - 1] + [segs[n - 1] + [line]]) == JoinWithBlankLines(segs) + [line]
  {
    var n := |segs|;
    var last := segs[n - 1] + [line];
    if n == 1 {
      assert segs[..0] + [last] == [last];
    } else {
      var front := segs[..n - 1];
      var joined := JoinWithBlankLines(front) + [""];
      JoinSnoc(front, last);
      assert JoinWithBlankLines(segs) == joined + segs[n - 1];
      assert joined + segs[n - 1] + [line] == joined + last;
    }
  }

  /** Splitting at blank lines loses nothing: the segments join back to the input. */
  lemma {:induction false} SegmentsJoin(lines: seq<string>)
    ensures JoinWithBlankLines(Segments(lines)) == lines
  {
    if lines != [] {
      var init := lines[..|lines| - 1];
      var line := lines[|lines| - 1];
      SegmentsJoin(init);
      assert lines == init + [line];
      if line == "" {
        SegmentsOfBlank(init);
        JoinSnoc(Segments(init), []);
      } else {
        SegmentsOfValueLine(init, line);
        JoinExtendLast(Segments(init), line);
      }
    }
  }

  /** No segment holds a blank line. */
  lemma {:induction false} SegmentsHaveNoBlankLine(lines: seq<string>)
    ensures forall k | 0 <= k < |Segments(lines)| :: "" !in Segments(lines)[k]
  {
    if lines != [] {
      var init := lines[..|lines| - 1];
      var prev := Segments(init);
      var line := lines[|lines| - 1];
      SegmentsHaveNoBlankLine(init);
      var segs := Segments(lines);
      var n := |prev|;
      if line != "" {
        forall k | 0 <= k < |segs| ensures "" !in segs[k] {
          if k < n - 1 { assert segs[k] == prev[k]; }
        }
      }
    }
  }

  /** The calorie values of the lines of a segment, if every one parses. */
  function ParseValues(seg: seq<string>): Option<seq<nat>> {
    if seg == [] then Some([])
    else
      var last := seg[|seg| - 1];
      match ParseValues(seg[..|seg| - 1])
      case None => None
      case Some(vs) =>
        match ParseU64(last)
        case None => None
        case Some(v) => Some(vs + [v])
  }

  /** The values exist exactly when every line parses. */
  lemma {:induction false} ParseValuesSpec(seg: seq<string>)
    ensures ParseValues(seg).Some? <==> forall i | 0 <= i < |seg| :: ParseU64(seg[i]).Some?
  {
    if seg != [] {
      var init := seg[..|seg| - 1];
      ParseValuesSpec(init);
      assert forall i | 0 <= i < |init| :: seg[i] == init[i];
    }
  }

  /** The values read are the lines' values, in order. */
  lemma {:induction false} ParseValuesAt(seg: seq<string>)
    ensures ParseValues(seg).Some? ==> |ParseValues(seg).value| == |seg|
    ensures ParseValues(seg).Some? ==>
      forall i | 0 <= i < |seg| :: ParseU64(seg[i]) == Some(ParseValues(seg).value[i])
  {
    if seg != [] && ParseValues(seg).Some? {
      var init := seg[..|seg| - 1];
      ParseValuesAt(init);
      var vs := ParseValues(init).value;
      assert ParseValues(seg).value == vs + [ParseU64(seg[|seg| - 1]).value];
      assert forall i | 0 <= i < |init| :: seg[i] == init[i];
    }
  }

  /** A line that parses adds its value to a segment's values. */
  lemma ParseValuesSnoc(seg: seq<string>, line: string)
    requires ParseValues(seg).Some? && ParseU64(line).Some?
    ensures ParseValues(seg + [line]) == Some(ParseValues(seg).value + [ParseU64(line).value])
  {
    assert (seg + [line])[..|seg|] == seg;
  }

  /** A blank line starts a new, empty segment. */
  lemma SegmentsOfBlank(init: seq<string>)
    ensures Segments(init + [""]) == Segments(init) + [[]]
  {
    assert (init + [""])[..|init|] == init;
  }

  /** Any other line joins the last segment. */
  lemma SegmentsOfValueLine(init: seq<string>, line: string)
    requires line != ""
    ensures var prev := Segments(init);
      Segments(init + [line]) == prev[..|prev| - 1] + [prev[|prev| - 1] + [line]]
  {
    assert (init + [line])[..|init|] == init;
  }

  /** After reading `read`, the elves added so far carry the values of all but
      the last segment, and the buffer holds the values of the last one. */
  ghost predicate ReadSoFar(read: seq<string>, elves: seq<Elf>, buffer: seq<nat>) {
    var segs := Segments(read);
    && |elves| == |segs| - 1
    && (forall k | 0 <= k < |elves| :: ParseValues(segs[k]) == Some(elves[k].foodCarried))
    && ParseValues(segs[|elves|]) == Some(buffer)
  }

  /** A blank line turns the buffer into a new elf and empties it. */
  lemma ReadBlank(read: seq<string>, elves: seq<Elf>, buffer: seq<nat>)
    requires ReadSoFar(read, elves, buffer)
    ensures ReadSoFar(read + [""], elves + [Elf(|elves| + 1, buffer)], [])
  {
    SegmentsOfBlank(read);
  }

  /** A calorie value is added to the buffer. */
  lemma ReadValue(read: seq<string>, elves: seq<Elf>, buffer: seq<nat>, line: string)
    requires ReadSoFar(read, elves, buffer)
    requires line != "" && ParseU64(line).Some?
    ensures ReadSoFar(read + [line], elves, buffer + [ParseU64(line).value])
  {
    var prev := Segments(read);
    SegmentsOfValueLine(read, line);
    ParseValuesSnoc(prev[|elves|], line);
    var segs := Segments(read + [line]);
    assert forall k | 0 <= k < |elves| :: segs[k] == prev[k];
  }

  /** What the reading loop holds after some lines: the elves added so far
      and the buffer of values read since the last blank line. */
  datatype ReadState = ReadState(elves: seq<Elf>, buffer: seq<nat>)

  /** The reading loop, one line at a time: a blank line adds an elf carrying
      the buffer (with the next id) and empties the buffer, any other line must
      be a calorie value and joins the buffer. The first line that is neither
      stops the reading with an error. */
  function ReadLines(read: seq<string>): (r: Result<ReadState, InputError>)
    ensures r.Success? ==> forall k | 0 <= k < |r.value.elves| :: r.value.elves[k].id == k + 1
  {
    if read == [] then Success(ReadState([], []))
    else
      match ReadLines(read[..|read| - 1])
      case Failure(e) => Failure(e)
      case Success(st) =>
        var line := read[|read| - 1];
        if line == "" then Success(ReadState(st.elves + [Elf(|st.elves| + 1, st.buffer)], []))
        else
          match ParseU64(line)
          case None => Failure(InvalidCalorieValue(line))
          case Some(v) => Success(ReadState(st.elves, st.buffer + [v]))
  }

  /** Reading succeeds exactly when every line that is not blank is a calorie
      value. */
  lemma {:induction false} ReadLinesFails(read: seq<string>)
    ensures ReadLines(read).Failure? <==>
      exists i | 0 <= i < |read| :: read[i] != "" && ParseU64(read[i]).None?
  {
    if read != [] {
      var init := read[..|read| - 1];
      ReadLinesFails(init);
      assert forall j | 0 <= j < |init| :: read[j] == init[j];
    }
  }

  /** The error names the first line that is neither blank nor a calorie value. */
  lemma {:induction false} ReadLinesFirstBadLine(read: seq<string>)
    ensures ReadLines(read).Failure? ==>
      exists i | 0 <= i < |read| ::
        && ReadLines(read).error == InvalidCalorieValue(read[i])
        && read[i] != "" && ParseU64(read[i]).None?
        && forall j | 0 <= j < i :: read[j] != "" ==> ParseU64(read[j]).Some?
  {
    if read != [] {
      var init := read[..|read| - 1];
      ReadLinesFirstBadLine(init);
      ReadLinesFails(init);
      assert forall j | 0 <= j < |init| :: read[j] == init[j];
    }
  }

  /** On success the elves are numbered 1, 2, ... and carry the values of
      every segment but the last, which stays in the buffer. */
  lemma {:induction false} ReadLinesElves(read: seq<string>)
    ensures ReadLines(read).Success? ==>
      var st := ReadLines(read).value;
      && (forall k | 0 <= k < |st.elves| :: st.elves[k].id == k + 1)
      && ReadSoFar(read, st.elves, st.buffer)
  {
    if read == [] {
      assert Segments(read) == [[]];
    } else {
      var init := read[..|read| - 1];
      var line := read[|read| - 1];
      ReadLinesElves(init);
      assert read == init + [line];
      if ReadLines(init).Success? {
        var st := ReadLines(init).value;
        if line == "" {
          ReadBlank(init, st.elves, st.buffer);
        } else if ParseU64(line).Some? {
          ReadValue(init, st.elves, st.buffer, line);
        }
      }
    }
  }

  /** Once reading has failed, further lines do not change the error. */
  lemma {:induction false} ReadLinesFailureStays(lines: seq<string>, i: nat)
    requires i <= |lines| && ReadLines(lines[..i]).Failure?
    ensures ReadLines(lines) == ReadLines(lines[..i])
    decreases |lines| - i
  {
    if i < |lines| {
      assert lines[..i + 1][..i] == lines[..i];
      ReadLinesFailureStays(lines, i + 1);
    } else {
      assert lines[..i] == lines;
    }
  }

  /** The reading loop of main, filling an ElfGroup line by line. */
  method CollectElves(lines: seq<string>) returns (r: Result<ElfGroup, InputError>)
    ensures ReadLines(lines).Failure? ==> r == Failure(ReadLines(lines).error)
    ensures ReadLines(lines).Success? ==>
      r.Success? && r.value.elves == ReadLines(lines).value.elves && r.value.Valid()
  {
    var elves := new ElfGroup();
    var curFoodCarried: seq<nat> := [];
    for i := 0 to |lines|
      invariant elves.Valid()
      invariant ReadLines(lines[..i]) == Success(ReadState(elves.elves, curFoodCarried))
    {
      var line := lines[i];
      assert lines[..i + 1][..i] == lines[..i];
      if line == "" {
        elves.AddElf(curFoodCarried);
        curFoodCarried := [];
      } else {
        match ParseU64(line) {
          case None =>
            ReadLinesFailureStays(lines, i + 1);
            return Failure(InvalidCalorieValue(line));
          case Some(value) =>
            curFoodCarried := curFoodCarried + [value];
        }
      }
    }
    assert lines[..|lines|] == lines;
    return Success(elves);
  }

  /** The elves of the worked example, as the test adds them. */
  function ExampleElves(): seq<Elf> {
    [Elf(1, [1000, 2000, 3000]), Elf(2, [4000]), Elf(3, [5000, 6000]),
     Elf(4, [7000, 8000, 9000]), Elf(5, [10000])]
  }

  lemma SumOfOne(a: nat)
    ensures Sum([a]) == a
  {
    assert [a][..0] == [];
  }

  lemma SumOfTwo(a: nat, b: nat)
    ensures Sum([a, b]) == a + b
  {
    assert [a, b][..1] == [a];
    SumOfOne(a);
  }

  lemma SumOfThree(a: nat, b: nat, c: nat)
    ensures Sum([a, b, c]) == a + b + c
  {
    assert [a, b, c][..2] == [a, b];
    SumOfTwo(a, b);
  }

  lemma ExampleTotals()
    ensures Totals(ExampleElves()) == [6000, 4000, 11000, 24000, 10000]
  {
    SumOfThree(1000, 2000, 3000);
    SumOfOne(4000);
    SumOfTwo(5000, 6000);
    SumOfThree(7000, 8000, 9000);
    SumOfOne(10000);
  }

  /** Of the example's totals, the fourth is the largest. */
  lemma ExampleMaximum()
    ensures LastMaxIndex([6000, 4000, 11000, 24000, 10000]) == 3
  {
    var totals := [6000, 4000, 11000, 24000, 10000];
    var k := LastMaxIndex(totals);
    LastMaxIndexSpec(totals);
    assert totals[3] <= totals[k];
  }

  /** Of the example's totals, the three largest sum to 45000: 24000, then
      11000, then 10000. */
  lemma ExampleTop3()
    ensures SumOfLargest([6000, 4000, 11000, 24000, 10000], 3) == 45000
  {
    var t0 := [6000, 4000, 11000, 24000, 10000];
    ExampleMaximum();
    assert t0[..3] + t0[4..] == [6000, 4000, 11000, 10000];
    ExampleSecondAndThird();
  }

  /** Without the 24000, the two largest are 11000 and 10000. */
  lemma ExampleSecondAndThird()
    ensures SumOfLargest([6000, 4000, 11000, 10000], 2) == 21000
  {
    var t1 := [6000, 4000, 11000, 10000];
    var m1 := LastMaxIndex(t1);
    LastMaxIndexSpec(t1);
    assert t1[2] <= t1[m1];
    assert t1[..2] + t1[3..] == [6000, 4000, 10000];
    ExampleThird();
  }

  /** Without 24000 and 11000, the largest is 10000. */
  lemma ExampleThird()
    ensures SumOfLargest([6000, 4000, 10000], 1) == 10000
  {
    var t2 := [6000, 4000, 10000];
    var m2 := LastMaxIndex(t2);
    LastMaxIndexSpec(t2);
    assert t2[2] <= t2[m2];
  }

  /** The worked example: elf #4 carries the most (24000), and the top three
      carry 45000. */
  method BriefExample() returns (chadElf: Option<Elf>, top3: nat)
    ensures chadElf == Some(Elf(4, [7000, 8000, 9000]))
    ensures TotalCaloriesCarried(chadElf.value) == 24000
    ensures top3 == 45000
  {
    var elves := new ElfGroup();
    elves.AddElf([1000, 2000, 3000]);
    elves.AddElf([4000]);
    elves.AddElf([5000, 6000]);
    elves.AddElf([7000, 8000, 9000]);
    elves.AddElf([10000]);
    assert elves.elves == ExampleElves();
    ExampleTotals();
    ExampleMaximum();
    ExampleTop3();
    chadElf := elves.ElfWithMostCalories();
    top3 := elves.Top3ElvesCalories();
  }
}
