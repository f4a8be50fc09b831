/** Day 3: rucksacks split into two compartments, the item types they share,
    and the sums of those items' priorities. */
module Rucksacks {
  import opened Wrappers

  // ---------------------------------------------------------------- priorities

  predicate IsLower(c: char) { 'a' <= c <= 'z' }
  predicate IsUpper(c: char) { 'A' <= c <= 'Z' }
  predicate IsLetter(c: char) { IsLower(c) || IsUpper(c) }

  /** A fixed array of 52 item types; an item's priority is its position plus one. */
  type PriorityTable = t: seq<char> | |t| == 52 witness seq(52, i => 'a')

  datatype Priorities = Priorities(table: PriorityTable)

  /** The item type that has no priority. */
  datatype PriorityError = OutOfRangePriority(item: char)

  /** The characters lo, lo + 1, ..., hi. */
  function CharRange(lo: char, hi: char): (r: seq<char>)
    requires lo <= hi && hi as int < 0xD800
    ensures |r| == hi as int - lo as int + 1
    ensures forall i | 0 <= i < |r| :: r[i] as int == lo as int + i
  {
    seq(hi as int - lo as int + 1, i requires 0 <= i <= hi as int - lo as int => (lo as int + i) as char)
  }

  /** `('a'..='z').chain('A'..='Z')`: every letter exactly once. */
  function LetterChain(): (t: seq<char>)
    ensures |t| == 52
    ensures forall i | 0 <= i < |t| :: IsLetter(t[i])
    ensures forall i, j | 0 <= i < j < |t| :: t[i] != t[j]
    ensures forall c :: IsLetter(c) ==> c in t
  {
    var t := CharRange('a', 'z') + CharRange('A', 'Z');
    assert forall i | 0 <= i < 26 :: t[i] as int == 'a' as int + i;
    assert forall i | 26 <= i < 52 :: t[i] as int == 'A' as int + i - 26;
    forall c | IsLetter(c) ensures c in t {
      if IsLower(c) {
        assert t[c as int - 'a' as int] == c;
      } else {
        assert t[c as int - 'A' as int + 26] == c;
      }
    }
    t
  }

  /** Priorities::default: the letter chain copied into the fixed array. */
  method DefaultPriorities() returns (p: Priorities)
    ensures p.table == LetterChain()
  {
    var res := LetterChain();
    var priorities := new char[52](i => '\0');
    forall i | 0 <= i < 52 {
      priorities[i] := res[i];
    }
    p := Priorities(priorities[..]);
  }

  /** Iterator::position: the index of the first occurrence of c. */
  function Position(table: seq<char>, c: char): (r: Option<nat>)
    ensures r.None? <==> c !in table
    ensures r.Some? ==> r.value < |table| && table[r.value] == c && c !in table[..r.value]
  {
    if table == [] then None
    else if table[0] == c then Some(0)
    else
      match Position(table[1..], c)
      case None => None
      case Some(k) =>
        assert table[..k + 1] == [table[0]] + table[1..][..k];
        Some(k + 1)
  }

  /** Priorities::priority_for_char: position + 1; an item type that is not in
      the table panics ("Out of range priority"), here an error. */
  function PriorityForChar(p: Priorities, c: char): (r: Result<nat, PriorityError>)
    ensures r.Success? <==> c in p.table
    ensures r.Success? ==> 1 <= r.value <= 52 && p.table[r.value - 1] == c
    ensures r.Failure? ==> r.error == OutOfRangePriority(c)
  {
    match Position(p.table, c)
    case None => Failure(OutOfRangePriority(c))
    case Some(pos) => Success(pos + 1)
  }

  /** With the default table, a..z have priorities 1..26 and A..Z 27..52; any
      other character has none. */
  lemma DefaultPriority(c: char)
    ensures IsLower(c) ==> PriorityForChar(Priorities(LetterChain()), c) == Success(c as int - 'a' as int + 1)
    ensures IsUpper(c) ==> PriorityForChar(Priorities(LetterChain()), c) == Success(c as int - 'A' as int + 27)
    ensures !IsLetter(c) ==> PriorityForChar(Priorities(LetterChain()), c) == Failure(OutOfRangePriority(c))
  {
    var t := LetterChain();
    var r := PriorityForChar(Priorities(t), c);
    if IsLetter(c) {
      var k := if IsLower(c) then c as int - 'a' as int else c as int - 'A' as int + 26;
      assert t[k] == c by {
        assert t == CharRange('a', 'z') + CharRange('A', 'Z');
      }
      assert r.value - 1 == k;
    }
  }

  /** Different items never share a priority. */
  lemma PriorityInjective(p: Priorities, a: char, b: char)
    requires PriorityForChar(p, a).Success? && PriorityForChar(p, a) == PriorityForChar(p, b)
    ensures a == b
  {
  }

  // ---------------------------------------------------------------- sums

  /** `Iterator::sum` over priorities that may panic: the sum when every term
      exists, otherwise the first error met. */
  function SumAll(rs: seq<Result<nat, PriorityError>>): Result<nat, PriorityError> {
    if rs == [] then Success(0)
    else
      match rs[0]
      case Failure(e) => Failure(e)
      case Success(v) =>
        match SumAll(rs[1..])
        case Failure(e) => Failure(e)
        case Success(w) => Success(v + w)
  }

  /** The sum exists exactly when every term does; otherwise its error is
      that of the first term that failed. */
  lemma {:induction false} SumAllSpec(rs: seq<Result<nat, PriorityError>>)
    ensures SumAll(rs).Success? <==> forall i | 0 <= i < |rs| :: rs[i].Success?
    ensures SumAll(rs).Failure? ==> exists i | 0 <= i < |rs| ::
      rs[i] == Failure(SumAll(rs).error) && forall j | 0 <= j < i :: rs[j].Success?
  {
    if rs != [] {
      SumAllSpec(rs[1..]);
      if rs[0].Success? && SumAll(rs[1..]).Failure? {
        var i :| 0 <= i < |rs| - 1 && rs[1..][i] == Failure(SumAll(rs[1..]).error)
          && forall j | 0 <= j < i :: rs[1..][j].Success?;
        assert rs[i + 1] == Failure(SumAll(rs).error);
      }
    }
  }

  /** Sums over a concatenation add up. */
  lemma {:induction false} SumAllAppend(a: seq<Result<nat, PriorityError>>, b: seq<Result<nat, PriorityError>>)
    requires SumAll(a).Success? && SumAll(b).Success?
    ensures SumAll(a + b) == Success(SumAll(a).value + SumAll(b).value)
  {
    if a != [] {
      assert (a + b)[1..] == a[1..] + b;
      SumAllAppend(a[1..], b);
    } else {
      assert a + b == b;
    }
  }

  /** A first term that exists adds its value to the sum of the rest. */
  lemma SumAllCons(a: Result<nat, PriorityError>, rest: seq<Result<nat, PriorityError>>)
    requires a.Success? && SumAll(rest).Success?
    ensures SumAll([a] + rest) == Success(a.value + SumAll(rest).value)
  {
    assert ([a] + rest)[1..] == rest;
  }

  /** A single term is its own sum. */
  lemma SumAllOfOne(a: Result<nat, PriorityError>)
    ensures SumAll([a]) == a
  {
    assert [a][1..] == [];
  }

  /** Terms that are all priorities (1 to 52) sum to between 1 and 52 per term. */
  lemma {:induction false} SumAllBounds(rs: seq<Result<nat, PriorityError>>)
    requires forall i | 0 <= i < |rs| :: rs[i].Success? && 1 <= rs[i].value <= 52
    ensures SumAll(rs).Success?
    ensures |rs| <= SumAll(rs).value <= 52 * |rs|
  {
    if rs != [] {
      SumAllBounds(rs[1..]);
      assert SumAll(rs) == Success(rs[0].value + SumAll(rs[1..]).value);
    }
  }

  // ---------------------------------------------------------------- containers

  /** A compartment's contents, one character per item. */
  datatype Container = Container(items: string)

  /** The priorities of a container's items in order. */
  function ItemPriorities(c: Container, p: Priorities): seq<Result<nat, PriorityError>>
    decreases |c.items|
  {
    if c.items == [] then []
    else [PriorityForChar(p, c.items[0])] + ItemPriorities(Container(c.items[1..]), p)
  }

  /** The list holds, at each position, the priority of the item there. */
  lemma {:induction false} ItemPrioritiesAt(c: Container, p: Priorities)
    ensures |ItemPriorities(c, p)| == |c.items|
    ensures forall i | 0 <= i < |c.items| :: ItemPriorities(c, p)[i] == PriorityForChar(p, c.items[i])
    decreases |c.items|
  {
    if c.items != [] {
      ItemPrioritiesAt(Container(c.items[1..]), p);
    }
  }

  /** Container::cumulated_priorities: the sum of its items' priorities, which
      fails on the first item that has none. */
  function CumulatedPriorities(c: Container, p: Priorities): Result<nat, PriorityError> {
    SumAll(ItemPriorities(c, p))
  }

  /** The sum exists exactly when every item has a priority, and then lies
      between 1 and 52 per item; otherwise the error names an item that has
      none. */
  lemma CumulatedPrioritiesSpec(c: Container, p: Priorities)
    ensures CumulatedPriorities(c, p).Success? <==> forall i | 0 <= i < |c.items| :: c.items[i] in p.table
    ensures CumulatedPriorities(c, p).Success? ==>
      |c.items| <= CumulatedPriorities(c, p).value <= 52 * |c.items|
    ensures c.items == [] ==> CumulatedPriorities(c, p) == Success(0)
    ensures CumulatedPriorities(c, p).Failure? ==> exists i | 0 <= i < |c.items| ::
      CumulatedPriorities(c, p).error == OutOfRangePriority(c.items[i]) && c.items[i] !in p.table
  {
    var rs := ItemPriorities(c, p);
    ItemPrioritiesAt(c, p);
    SumAllSpec(rs);
    if forall i | 0 <= i < |rs| :: rs[i].Success? {
      SumAllBounds(rs);
    }
  }

  /** Priorities add up over concatenated contents. */
  lemma CumulatedPrioritiesAppend(s: string, t: string, p: Priorities)
    requires CumulatedPriorities(Container(s), p).Success?
    requires CumulatedPriorities(Container(t), p).Success?
    ensures CumulatedPriorities(Container(s + t), p)
         == Success(CumulatedPriorities(Container(s), p).value + CumulatedPriorities(Container(t), p).value)
  {
    var a := ItemPriorities(Container(s), p);
    var b := ItemPriorities(Container(t), p);
    var ab := ItemPriorities(Container(s + t), p);
    ItemPrioritiesAt(Container(s), p);
    ItemPrioritiesAt(Container(t), p);
    ItemPrioritiesAt(Container(s + t), p);
    forall i | 0 <= i < |ab| ensures ab[i] == (a + b)[i] {
      if i < |s| {
        assert (s + t)[i] == s[i];
      } else {
        assert (s + t)[i] == t[i - |s|];
      }
    }
    assert ab == a + b;
    SumAllAppend(a, b);
  }

  // ---------------------------------------------------------------- rucksacks

  datatype Rucksack = Rucksack(c1: Container, c2: Container)

  /** The contents do not split into two equal compartments. */
  datatype RucksackError = OddLength(length: nat)

  /** Rucksack::to_string: the first compartment followed by the second. */
  function ToString(r: Rucksack): (s: string)
    ensures |s| == |r.c1.items| + |r.c2.items|
    ensures s[..|r.c1.items|] == r.c1.items && s[|r.c1.items|..] == r.c2.items
  {
    r.c1.items + r.c2.items
  }

  /** Rucksack::new_from_str: an odd length is an error; otherwise the first
      half is the first compartment and the second half the second. */
  function NewFromStr(s: string): (r: Result<Rucksack, RucksackError>)
    ensures r.Failure? <==> |s| % 2 != 0
    ensures r.Success? ==> |r.value.c1.items| == |r.value.c2.items| == |s| / 2
    ensures r.Success? ==> ToString(r.value) == s
  {
    if |s| % 2 != 0 then Failure(OddLength(|s|))
    else
      var half := |s| / 2;
      assert s[..half] + s[half..] == s;
      Success(Rucksack(Container(s[..half]), Container(s[half..])))
  }

  /** A rucksack with equal compartments is what its contents parse back to. */
  lemma NewFromStrOfToString(r: Rucksack)
    requires |r.c1.items| == |r.c2.items|
    ensures NewFromStr(ToString(r)) == Success(r)
  {
    var s := ToString(r);
    assert s[..|s| / 2] == r.c1.items && s[|s| / 2..] == r.c2.items;
  }

  // ---------------------------------------------------------------- common items

  /** The items of s that also occur in t, in the order of s, repeats kept. */
  function Shared(s: string, t: string): (r: string)
    ensures IsSubsequence(r, s)
  {
    if s == [] then []
    else
      var prev := Shared(s[..|s| - 1], t);
      var x := s[|s| - 1];
      if x in t then prev + [x] else prev
  }

  /** The shared items are exactly the item types both hold, and each of them
      occurs in t. */
  lemma {:induction false} SharedSpec(s: string, t: string)
    ensures forall x :: x in Shared(s, t) <==> x in s && x in t
    ensures forall i | 0 <= i < |Shared(s, t)| :: Shared(s, t)[i] in t
  {
    if s != [] {
      SharedSpec(s[..|s| - 1], t);
      assert s == s[..|s| - 1] + [s[|s| - 1]];
    }
  }

  lemma SharedSnoc(s: string, x: char, t: string)
    ensures Shared(s + [x], t) == Shared(s, t) + (if x in t then [x] else [])
  {
    assert (s + [x])[..|s|] == s;
  }

  ghost predicate NoAdjacentDuplicates(s: string) {
    forall i | 0 < i < |s| :: s[i - 1] != s[i]
  }

  /** Vec::dedup: drops every element equal to the one kept just before it, so
      only consecutive repeats are removed. */
  function Dedup(s: string): (r: string)
    ensures |r| <= |s|
    ensures s != [] ==> r != []
  {
    if s == [] then []
    else
      var prev := Dedup(s[..|s| - 1]);
      var x := s[|s| - 1];
      if prev != [] && prev[|prev| - 1] == x then prev else prev + [x]
  }

  /** Dedup keeps the last element and the item types, and leaves no item
      repeated back to back. */
  lemma {:induction false} DedupSpec(s: string)
    ensures s != [] ==> Dedup(s)[|Dedup(s)| - 1] == s[|s| - 1]
    ensures forall x :: x in Dedup(s) <==> x in s
    ensures NoAdjacentDuplicates(Dedup(s))
  {
    if s != [] {
      var prev := Dedup(s[..|s| - 1]);
      var x := s[|s| - 1];
      DedupSpec(s[..|s| - 1]);
      assert s == s[..|s| - 1] + [x];
      if !(prev != [] && prev[|prev| - 1] == x) {
        assert Dedup(s) == prev + [x];
        forall i | 0 < i < |prev + [x]| ensures (prev + [x])[i - 1] != (prev + [x])[i] {
          if i < |prev| {
            assert (prev + [x])[i - 1] == prev[i - 1] && (prev + [x])[i] == prev[i];
          }
        }
      }
    }
  }

  /** The heads of the runs of equal neighbours: s[i] is kept exactly when it
      is the first element or differs from s[i - 1], its neighbour in s. */
  function RunHeads(s: string): string {
    if s == [] then []
    else
      var n := |s|;
      RunHeads(s[..n - 1]) + (if n > 1 && s[n - 2] == s[n - 1] then [] else [s[n - 1]])
  }

  /** Dedup removes exactly the elements equal to their predecessor in the
      input, that is, only consecutive repeats. */
  lemma {:induction false} DedupIsRunHeads(s: string)
    ensures Dedup(s) == RunHeads(s)
  {
    if s != [] {
      var n := |s|;
      var init := s[..n - 1];
      DedupIsRunHeads(init);
      if n > 1 {
        DedupSpec(init);
        assert init[n - 2] == s[n - 2];
      }
    }
  }

  /** A sequence without adjacent repeats is its own dedup, whatever repeats
      it holds further apart. */
  lemma {:induction false} DedupOfNoAdjacentDuplicates(s: string)
    requires NoAdjacentDuplicates(s)
    ensures Dedup(s) == s
  {
    RunHeadsOfNoAdjacentDuplicates(s);
    DedupIsRunHeads(s);
  }

  lemma {:induction false} RunHeadsOfNoAdjacentDuplicates(s: string)
    requires NoAdjacentDuplicates(s)
    ensures RunHeads(s) == s
  {
    if s != [] {
      var n := |s|;
      var init := s[..n - 1];
      assert NoAdjacentDuplicates(init) by {
        forall i | 0 < i < |init| ensures init[i - 1] != init[i] {
          assert init[i - 1] == s[i - 1] && init[i] == s[i];
        }
      }
      RunHeadsOfNoAdjacentDuplicates(init);
      assert s == init + [s[n - 1]];
    }
  }

  /** a can be obtained from b by deleting elements. */
  ghost predicate IsSubsequence(a: string, b: string)
    decreases |b|
  {
    if a == [] then true
    else if b == [] then false
    else
      || (a[|a| - 1] == b[|b| - 1] && IsSubsequence(a[..|a| - 1], b[..|b| - 1]))
      || IsSubsequence(a, b[..|b| - 1])
  }

  lemma {:induction false} SubsequenceTransitive(a: string, b: string, c: string)
    requires IsSubsequence(a, b) && IsSubsequence(b, c)
    ensures IsSubsequence(a, c)
    decreases |c|
  {
    if a != [] {
      var c' := c[..|c| - 1];
      if IsSubsequence(b, c') {
        SubsequenceTransitive(a, b, c');
      } else {
        var b' := b[..|b| - 1];
        if a[|a| - 1] == b[|b| - 1] && IsSubsequence(a[..|a| - 1], b') {
          SubsequenceTransitive(a[..|a| - 1], b', c');
        } else {
          SubsequenceTransitive(a, b', c');
        }
      }
    }
  }

  lemma {:induction false} DedupIsSubsequence(s: string)
    ensures IsSubsequence(Dedup(s), s)
  {
    if s != [] {
      DedupIsSubsequence(s[..|s| - 1]);
    }
  }

  /** Deduplicating a run of one repeated item leaves that item once. */
  lemma {:induction false} DedupOfRun(s: string, x: char)
    requires s != [] && forall i | 0 <= i < |s| :: s[i] == x
    ensures Dedup(s) == [x]
  {
    if |s| > 1 {
      DedupOfRun(s[..|s| - 1], x);
    }
  }

  /** Rucksack::common_items: the items of the first compartment that occur in
      the second, consecutive repeats collapsed. */
  function CommonItemsOf(r: Rucksack): (c: Container)
    ensures NoAdjacentDuplicates(c.items)
  {
    DedupSpec(Shared(r.c1.items, r.c2.items));
    Container(Dedup(Shared(r.c1.items, r.c2.items)))
  }

  /** The common items keep the first compartment's order, are exactly the item
      types both compartments hold, and never repeat an item back to back. */
  lemma CommonItemsOfSpec(r: Rucksack)
    ensures IsSubsequence(CommonItemsOf(r).items, r.c1.items)
    ensures forall x :: x in CommonItemsOf(r).items <==> x in r.c1.items && x in r.c2.items
    ensures CommonItemsOf(r).items == RunHeads(Shared(r.c1.items, r.c2.items))
  {
    var shared := Shared(r.c1.items, r.c2.items);
    DedupIsRunHeads(shared);
    SharedSpec(r.c1.items, r.c2.items);
    DedupSpec(shared);
    DedupIsSubsequence(shared);
    SubsequenceTransitive(Dedup(shared), shared, r.c1.items);
  }

  /** Of the items of a, only x occurs in t. */
  ghost predicate SharesOnly(a: string, t: string, x: char) {
    forall i | 0 <= i < |a| :: a[i] in t ==> a[i] == x
  }

  /** When the compartments share exactly one item type, the common items are
      that one item, however often it occurs. */
  lemma CommonItemsOfOneSharedType(r: Rucksack, x: char)
    requires x in r.c1.items && x in r.c2.items
    requires SharesOnly(r.c1.items, r.c2.items, x)
    ensures CommonItemsOf(r).items == [x]
  {
    var shared := Shared(r.c1.items, r.c2.items);
    SharedSpec(r.c1.items, r.c2.items);
    forall i | 0 <= i < |shared| ensures shared[i] == x {
      assert shared[i] in shared;
    }
    DedupOfRun(shared, x);
  }

  /** Only consecutive repeats collapse: a shared item that comes back after
      another one is kept twice, and its priority counted twice. */
  lemma CommonItemsKeepsSeparatedRepeats(a: char, b: char, y: char)
    requires a != b
    ensures CommonItemsOf(Rucksack(Container([a, b, a]), Container([a, b, y]))).items == [a, b, a]
  {
    SharedOfContained([a, b, a], [a, b, y]);
    DedupKeepsSeparatedRepeat(a, b);
  }

  /** Dedup leaves a, b, a alone when a and b differ. */
  lemma DedupKeepsSeparatedRepeat(a: char, b: char)
    requires a != b
    ensures Dedup([a, b, a]) == [a, b, a]
  {
    assert Dedup([a]) == [a] by {
      DedupSnoc([], a);
      assert [] + [a] == [a];
    }
    assert Dedup([a, b]) == [a, b] by {
      DedupSnoc([a], b);
      assert [a] + [b] == [a, b];
    }
    DedupSnoc([a, b], a);
    assert [a, b] + [a] == [a, b, a];
  }

  lemma DedupSnoc(s: string, x: char)
    ensures Dedup(s + [x]) == if Dedup(s) != [] && Dedup(s)[|Dedup(s)| - 1] == x then Dedup(s) else Dedup(s) + [x]
  {
    assert (s + [x])[..|s|] == s;
  }

  /** Filtering by a sequence that holds every item keeps everything. */
  lemma {:induction false} SharedOfContained(s: string, t: string)
    requires forall i | 0 <= i < |s| :: s[i] in t
    ensures Shared(s, t) == s
  {
    if s != [] {
      SharedOfContained(s[..|s| - 1], t);
      assert s == s[..|s| - 1] + [s[|s| - 1]];
    }
  }

  /** Vec::dedup in place: keeps the first of each run of equal items, moving
      the kept ones to the front; returns how many were kept. */
  method DedupInPlace(a: array<char>) returns (len: nat)
    modifies a
    ensures len <= a.Length
    ensures a[..len] == Dedup(old(a[..]))
  {
    ghost var original := a[..];
    if a.Length == 0 {
      return 0;
    }
    assert original[..1] == [original[0]];
    var write := 1;
    var read := 1;
    while read < a.Length
      invariant 1 <= write <= read <= a.Length
      invariant a[..write] == Dedup(original[..read])
      invariant forall k | read <= k < a.Length :: a[k] == original[k]
    {
      ghost var done := original[..read];
      assert original[..read + 1] == done + [original[read]];
      DedupSnoc(done, original[read]);
      assert a[read] == original[read];
      if a[read] != a[write - 1] {
        ghost var kept := a[..write];
        a[write] := a[read];
        assert a[..write + 1] == kept + [original[read]];
        write := write + 1;
      }
      read := read + 1;
    }
    assert original[..a.Length] == original;
    len := write;
  }

  /** The filtered items collected into a buffer, then deduplicated in place. */
  method CollectAndDedup(items: string) returns (c: Container)
    ensures c.items == Dedup(items)
  {
    var buffer := new char[|items|](i requires 0 <= i < |items| => items[i]);
    assert buffer[..] == items;
    var len := DedupInPlace(buffer);
    c := Container(buffer[..len]);
  }

  /** Rucksack::common_items, step by step: filter the first compartment by
      membership in the second, then dedup. */
  method CommonItems(r: Rucksack) returns (common: Container)
    ensures common == CommonItemsOf(r)
  {
    var c2Chars := r.c2.items;
    var commonChars: string := [];
    for i := 0 to |r.c1.items|
      invariant commonChars == Shared(r.c1.items[..i], c2Chars)
    {
      var item := r.c1.items[i];
      SharedSnoc(r.c1.items[..i], item, c2Chars);
      assert r.c1.items[..i + 1] == r.c1.items[..i] + [item];
      if item in c2Chars {
        commonChars := commonChars + [item];
      }
    }
    assert r.c1.items[..|r.c1.items|] == r.c1.items;
    common := CollectAndDedup(commonChars);
  }

  /** Rucksack::common_items_with_group: the items of the first rucksack that
      occur in the second and in the third, consecutive repeats collapsed. */
  function BadgeItemsOf(one: Rucksack, two: Rucksack, three: Rucksack): (b: Container)
    ensures NoAdjacentDuplicates(b.items)
  {
    DedupSpec(Shared(Shared(ToString(one), ToString(two)), ToString(three)));
    Container(Dedup(Shared(Shared(ToString(one), ToString(two)), ToString(three))))
  }

  /** The badge candidates keep the first rucksack's order, are exactly the
      item types all three rucksacks hold, and never repeat an item back to
      back. */
  lemma BadgeItemsOfSpec(one: Rucksack, two: Rucksack, three: Rucksack)
    ensures IsSubsequence(BadgeItemsOf(one, two, three).items, ToString(one))
    ensures forall x :: x in BadgeItemsOf(one, two, three).items <==>
      x in ToString(one) && x in ToString(two) && x in ToString(three)
    ensures BadgeItemsOf(one, two, three).items
         == RunHeads(Shared(Shared(ToString(one), ToString(two)), ToString(three)))
  {
    var inTwo := Shared(ToString(one), ToString(two));
    var shared := Shared(inTwo, ToString(three));
    DedupIsRunHeads(shared);
    SharedSpec(ToString(one), ToString(two));
    SharedSpec(inTwo, ToString(three));
    DedupSpec(shared);
    DedupIsSubsequence(shared);
    SubsequenceTransitive(shared, inTwo, ToString(one));
    SubsequenceTransitive(Dedup(shared), shared, ToString(one));
  }

  /** Rucksack::common_items_with_group, step by step. */
  method CommonItemsWithGroup(one: Rucksack, two: Rucksack, three: Rucksack) returns (badge: Container)
    ensures badge == BadgeItemsOf(one, two, three)
  {
    var oneStr := ToString(one);
    var twoChars := ToString(two);
    var threeChars := ToString(three);
    var common: string := [];
    for i := 0 to |oneStr|
      invariant common == Shared(Shared(oneStr[..i], twoChars), threeChars)
    {
      var c := oneStr[i];
      assert oneStr[..i + 1] == oneStr[..i] + [c];
      SharedSnoc(oneStr[..i], c, twoChars);
      SharedSnoc(Shared(oneStr[..i], twoChars), c, threeChars);
      if c in twoChars && c in threeChars {
        common := common + [c];
      }
    }
    assert oneStr[..|oneStr|] == oneStr;
    badge := CollectAndDedup(common);
  }

  // ---------------------------------------------------------------- groups

  /** RucksackGroup::cumulated_priority_sum: over all rucksacks, the priorities
      of their common items. */
  function CumulatedPrioritySum(group: seq<Rucksack>, p: Priorities): (r: Result<nat, PriorityError>)
    ensures group == [] ==> r == Success(0)
  {
    SumAll(CommonItemPriorities(group, p))
  }

  /** The group's sum exists exactly when every rucksack's common items have
      priorities. */
  lemma CumulatedPrioritySumSpec(group: seq<Rucksack>, p: Priorities)
    ensures CumulatedPrioritySum(group, p).Success? <==>
      forall i | 0 <= i < |group| :: CumulatedPriorities(CommonItemsOf(group[i]), p).Success?
  {
    CommonItemPrioritiesAt(group, p);
    SumAllSpec(CommonItemPriorities(group, p));
  }

  /** The priorities of each rucksack's common items, in order. */
  function CommonItemPriorities(group: seq<Rucksack>, p: Priorities): seq<Result<nat, PriorityError>> {
    if group == [] then []
    else [CumulatedPriorities(CommonItemsOf(group[0]), p)] + CommonItemPriorities(group[1..], p)
  }

  /** The list holds, at each position, the sum for the rucksack there. */
  lemma {:induction false} CommonItemPrioritiesAt(group: seq<Rucksack>, p: Priorities)
    ensures |CommonItemPriorities(group, p)| == |group|
    ensures forall i | 0 <= i < |group| ::
      CommonItemPriorities(group, p)[i] == CumulatedPriorities(CommonItemsOf(group[i]), p)
  {
    if group != [] {
      CommonItemPrioritiesAt(group[1..], p);
    }
  }

  /** A rucksack put in front of a group adds its common items' priorities to
      the group's sum. */
  lemma CumulatedPrioritySumCons(r: Rucksack, rest: seq<Rucksack>, p: Priorities)
    requires CumulatedPriorities(CommonItemsOf(r), p).Success?
    requires CumulatedPrioritySum(rest, p).Success?
    ensures CumulatedPrioritySum([r] + rest, p)
         == Success(CumulatedPriorities(CommonItemsOf(r), p).value + CumulatedPrioritySum(rest, p).value)
  {
    var ts := CommonItemPriorities(rest, p);
    assert ([r] + rest)[1..] == rest;
    SumAllCons(CumulatedPriorities(CommonItemsOf(r), p), ts);
  }

  /** When each rucksack's common items sum to a given result, the group's
      sum is the sum of those results. */
  lemma CumulatedPrioritySumOfEach(group: seq<Rucksack>, p: Priorities, rs: seq<Result<nat, PriorityError>>)
    requires |rs| == |group|
    requires forall i | 0 <= i < |group| :: CumulatedPriorities(CommonItemsOf(group[i]), p) == rs[i]
    ensures CumulatedPrioritySum(group, p) == SumAll(rs)
  {
    CommonItemPrioritiesAt(group, p);
    assert CommonItemPriorities(group, p) == rs;
  }

  /** slice::chunks_exact(3): the consecutive triples from the start; a
      trailing one or two elements belong to none. */
  function ChunksExact3<T>(s: seq<T>): (chunks: seq<(T, T, T)>)
    ensures |chunks| == |s| / 3
    ensures forall k | 0 <= k < |chunks| :: chunks[k] == (s[3 * k], s[3 * k + 1], s[3 * k + 2])
  {
    if |s| < 3 then []
    else
      var rest := ChunksExact3(s[3..]);
      assert forall k | 0 <= k < |rest| :: rest[k] == (s[3 * k + 3], s[3 * k + 4], s[3 * k + 5]);
      [(s[0], s[1], s[2])] + rest
  }

  /** RucksackGroup::group_badge_priority_sum: over each triple, the priorities
      of the items its three rucksacks share. */
  function GroupBadgePrioritySum(group: seq<Rucksack>, p: Priorities): (r: Result<nat, PriorityError>)
    ensures |group| < 3 ==> r == Success(0)
  {
    var chunks := ChunksExact3(group);
    SumAll(seq(|chunks|, k requires 0 <= k < |chunks| =>
      CumulatedPriorities(BadgeItemsOf(chunks[k].0, chunks[k].1, chunks[k].2), p)))
  }

  /** A trailing partial triple is ignored: only the first 3 * (n / 3)
      rucksacks count. */
  lemma GroupBadgeIgnoresPartialChunk(group: seq<Rucksack>, p: Priorities)
    ensures GroupBadgePrioritySum(group, p) == GroupBadgePrioritySum(group[..|group| / 3 * 3], p)
  {
    assert ChunksExact3(group) == ChunksExact3(group[..|group| / 3 * 3]);
  }

  // ---------------------------------------------------------------- example

  /** The six rucksacks of the worked example, as new_from_str splits them. */
  function ExampleGroup(): seq<Rucksack> {
    [Rucksack(Container("vJrwpWtwJgWr"), Container("hcsFMMfFFhFp")),
     Rucksack(Container("jqHRNqRjqzjGDLGL"), Container("rsFMfFZSrLrFZsSL")),
     Rucksack(Container("PmmdzqPrV"), Container("vPwwTWBwg")),
     Rucksack(Container("wMqvLMZHhHMvwLH"), Container("jbvcjnnSBnvTQFn")),
     Rucksack(Container("ttgJtRGJ"), Container("QctTZtZT")),
     Rucksack(Container("CrZsJsPPZsGz"), Container("wwsLwLmpwMDw"))]
  }

  /** The first example line splits into vJrwpWtwJgWr and hcsFMMfFFhFp. */
  lemma ExampleFirstParses()
    ensures NewFromStr("vJrwpWtwJgWrhcsFMMfFFhFp") == Success(ExampleGroup()[0])
  {
    var r := Rucksack(Container("vJrwpWtwJgWr"), Container("hcsFMMfFFhFp"));
    NewFromStrOfToString(r);
    assert ToString(r) == "vJrwpWtwJgWrhcsFMMfFFhFp";
  }

  /** Those two compartments share only 'p'. */
  lemma ExampleFirstSharesOnly()
    ensures 'p' in "vJrwpWtwJgWr" && 'p' in "hcsFMMfFFhFp"
    ensures SharesOnly("vJrwpWtwJgWr", "hcsFMMfFFhFp", 'p')
  {
  }

  lemma ExampleFirstCommonItems()
    ensures CommonItemsOf(ExampleGroup()[0]).items == "p"
  {
    ExampleFirstSharesOnly();
    CommonItemsOfOneSharedType(ExampleGroup()[0], 'p');
  }

  /** The second example line splits into jqHRNqRjqzjGDLGL and rsFMfFZSrLrFZsSL. */
  lemma ExampleSecondParses()
    ensures NewFromStr("jqHRNqRjqzjGDLGLrsFMfFZSrLrFZsSL") == Success(ExampleGroup()[1])
  {
    var r := Rucksack(Container("jqHRNqRjqzjGDLGL"), Container("rsFMfFZSrLrFZsSL"));
    NewFromStrOfToString(r);
    assert ToString(r) == "jqHRNqRjqzjGDLGLrsFMfFZSrLrFZsSL";
  }

  /** Those two compartments share only 'L'. */
  lemma ExampleSecondSharesOnly()
    ensures 'L' in "jqHRNqRjqzjGDLGL" && 'L' in "rsFMfFZSrLrFZsSL"
    ensures SharesOnly("jqHRNqRjqzjGDLGL", "rsFMfFZSrLrFZsSL", 'L')
  {
  }

  lemma ExampleSecondCommonItems()
    ensures CommonItemsOf(ExampleGroup()[1]).items == "L"
  {
    ExampleSecondSharesOnly();
    CommonItemsOfOneSharedType(ExampleGroup()[1], 'L');
  }

  /** The third example line splits into PmmdzqPrV and vPwwTWBwg. */
  lemma ExampleThirdParses()
    ensures NewFromStr("PmmdzqPrVvPwwTWBwg") == Success(ExampleGroup()[2])
  {
    var r := Rucksack(Container("PmmdzqPrV"), Container("vPwwTWBwg"));
    NewFromStrOfToString(r);
    assert ToString(r) == "PmmdzqPrVvPwwTWBwg";
  }

  /** Those two compartments share only 'P'. */
  lemma ExampleThirdSharesOnly()
    ensures 'P' in "PmmdzqPrV" && 'P' in "vPwwTWBwg"
    ensures SharesOnly("PmmdzqPrV", "vPwwTWBwg", 'P')
  {
  }

  lemma ExampleThirdCommonItems()
    ensures CommonItemsOf(ExampleGroup()[2]).items == "P"
  {
    ExampleThirdSharesOnly();
    CommonItemsOfOneSharedType(ExampleGroup()[2], 'P');
  }

  /** The fourth example line splits into wMqvLMZHhHMvwLH and jbvcjnnSBnvTQFn. */
  lemma ExampleFourthParses()
    ensures NewFromStr("wMqvLMZHhHMvwLHjbvcjnnSBnvTQFn") == Success(ExampleGroup()[3])
  {
    var r := Rucksack(Container("wMqvLMZHhHMvwLH"), Container("jbvcjnnSBnvTQFn"));
    NewFromStrOfToString(r);
    assert ToString(r) == "wMqvLMZHhHMvwLHjbvcjnnSBnvTQFn";
  }

  /** Those two compartments share only 'v'. */
  lemma ExampleFourthSharesOnly()
    ensures 'v' in "wMqvLMZHhHMvwLH" && 'v' in "jbvcjnnSBnvTQFn"
    ensures SharesOnly("wMqvLMZHhHMvwLH", "jbvcjnnSBnvTQFn", 'v')
  {
  }

  lemma ExampleFourthCommonItems()
    ensures CommonItemsOf(ExampleGroup()[3]).items == "v"
  {
    ExampleFourthSharesOnly();
    CommonItemsOfOneSharedType(ExampleGroup()[3], 'v');
  }

  /** The fifth example line splits into ttgJtRGJ and QctTZtZT. */
  lemma ExampleFifthParses()
    ensures NewFromStr("ttgJtRGJQctTZtZT") == Success(ExampleGroup()[4])
  {
    var r := Rucksack(Container("ttgJtRGJ"), Container("QctTZtZT"));
    NewFromStrOfToString(r);
    assert ToString(r) == "ttgJtRGJQctTZtZT";
  }

  /** Those two compartments share only 't'. */
  lemma ExampleFifthSharesOnly()
    ensures 't' in "ttgJtRGJ" && 't' in "QctTZtZT"
    ensures SharesOnly("ttgJtRGJ", "QctTZtZT", 't')
  {
  }

  lemma ExampleFifthCommonItems()
    ensures CommonItemsOf(ExampleGroup()[4]).items == "t"
  {
    ExampleFifthSharesOnly();
    CommonItemsOfOneSharedType(ExampleGroup()[4], 't');
  }

  /** The sixth example line splits into CrZsJsPPZsGz and wwsLwLmpwMDw. */
  lemma ExampleSixthParses()
    ensures NewFromStr("CrZsJsPPZsGzwwsLwLmpwMDw") == Success(ExampleGroup()[5])
  {
    var r := Rucksack(Container("CrZsJsPPZsGz"), Container("wwsLwLmpwMDw"));
    NewFromStrOfToString(r);
    assert ToString(r) == "CrZsJsPPZsGzwwsLwLmpwMDw";
  }

  /** Those two compartments share only 's'. */
  lemma ExampleSixthSharesOnly()
    ensures 's' in "CrZsJsPPZsGz" && 's' in "wwsLwLmpwMDw"
    ensures SharesOnly("CrZsJsPPZsGz", "wwsLwLmpwMDw", 's')
  {
  }

  lemma ExampleSixthCommonItems()
    ensures CommonItemsOf(ExampleGroup()[5]).items == "s"
  {
    ExampleSixthSharesOnly();
    CommonItemsOfOneSharedType(ExampleGroup()[5], 's');
  }

  /** One item's container is worth that item's priority. */
  lemma CumulatedPrioritiesOfOne(x: char, p: Priorities)
    ensures CumulatedPriorities(Container([x]), p) == PriorityForChar(p, x)
  {
    assert [x][1..] == [];
    assert ItemPriorities(Container([x]), p) == [PriorityForChar(p, x)] + ItemPriorities(Container([]), p);
    assert [PriorityForChar(p, x)] + [] == [PriorityForChar(p, x)];
    SumAllOfOne(PriorityForChar(p, x));
  }

  /** A rucksack whose only common item is x is worth x's priority. */
  lemma PriorityOfSingleCommonItem(r: Rucksack, x: char, p: Priorities)
    requires CommonItemsOf(r).items == [x]
    ensures CumulatedPriorities(CommonItemsOf(r), p) == PriorityForChar(p, x)
  {
    assert CommonItemsOf(r) == Container([x]);
    CumulatedPrioritiesOfOne(x, p);
  }

  lemma ExampleFirstPriority()
    ensures CumulatedPriorities(CommonItemsOf(ExampleGroup()[0]), Priorities(LetterChain())) == Success(16)
  {
    ExampleFirstCommonItems();
    PriorityOfSingleCommonItem(ExampleGroup()[0], 'p', Priorities(LetterChain()));
    DefaultPriority('p');
  }

  lemma ExampleSecondPriority()
    ensures CumulatedPriorities(CommonItemsOf(ExampleGroup()[1]), Priorities(LetterChain())) == Success(38)
  {
    ExampleSecondCommonItems();
    PriorityOfSingleCommonItem(ExampleGroup()[1], 'L', Priorities(LetterChain()));
    DefaultPriority('L');
  }

  lemma ExampleThirdPriority()
    ensures CumulatedPriorities(CommonItemsOf(ExampleGroup()[2]), Priorities(LetterChain())) == Success(42)
  {
    ExampleThirdCommonItems();
    PriorityOfSingleCommonItem(ExampleGroup()[2], 'P', Priorities(LetterChain()));
    DefaultPriority('P');
  }

  lemma ExampleFourthPriority()
    ensures CumulatedPriorities(CommonItemsOf(ExampleGroup()[3]), Priorities(LetterChain())) == Success(22)
  {
    ExampleFourthCommonItems();
    PriorityOfSingleCommonItem(ExampleGroup()[3], 'v', Priorities(LetterChain()));
    DefaultPriority('v');
  }

  lemma ExampleFifthPriority()
    ensures CumulatedPriorities(CommonItemsOf(ExampleGroup()[4]), Priorities(LetterChain())) == Success(20)
  {
    ExampleFifthCommonItems();
    PriorityOfSingleCommonItem(ExampleGroup()[4], 't', Priorities(LetterChain()));
    DefaultPriority('t');
  }

  lemma ExampleSixthPriority()
    ensures CumulatedPriorities(CommonItemsOf(ExampleGroup()[5]), Priorities(LetterChain())) == Success(19)
  {
    ExampleSixthCommonItems();
    PriorityOfSingleCommonItem(ExampleGroup()[5], 's', Priorities(LetterChain()));
    DefaultPriority('s');
  }

  lemma ExampleSumAll()
    ensures SumAll([Success(16), Success(38), Success(42), Success(22), Success(20), Success(19)]) == Success(157)
  {
  }

  /** Six rucksacks worth 16, 38, 42, 22, 20 and 19 make 157 together. */
  lemma SixRucksacksTotal(g: seq<Rucksack>, p: Priorities)
    requires |g| == 6
    requires CumulatedPriorities(CommonItemsOf(g[0]), p) == Success(16)
    requires CumulatedPriorities(CommonItemsOf(g[1]), p) == Success(38)
    requires CumulatedPriorities(CommonItemsOf(g[2]), p) == Success(42)
    requires CumulatedPriorities(CommonItemsOf(g[3]), p) == Success(22)
    requires CumulatedPriorities(CommonItemsOf(g[4]), p) == Success(20)
    requires CumulatedPriorities(CommonItemsOf(g[5]), p) == Success(19)
    ensures CumulatedPrioritySum(g, p) == Success(157)
  {
    var rs := [Success(16), Success(38), Success(42), Success(22), Success(20), Success(19)];
    SixKnownValues(g, p, rs);
    CumulatedPrioritySumOfEach(g, p, rs);
    ExampleSumAll();
  }

  lemma SixKnownValues(g: seq<Rucksack>, p: Priorities, vs: seq<Result<nat, PriorityError>>)
    requires |g| == 6 && |vs| == 6
    requires CumulatedPriorities(CommonItemsOf(g[0]), p) == vs[0]
    requires CumulatedPriorities(CommonItemsOf(g[1]), p) == vs[1]
    requires CumulatedPriorities(CommonItemsOf(g[2]), p) == vs[2]
    requires CumulatedPriorities(CommonItemsOf(g[3]), p) == vs[3]
    requires CumulatedPriorities(CommonItemsOf(g[4]), p) == vs[4]
    requires CumulatedPriorities(CommonItemsOf(g[5]), p) == vs[5]
    ensures forall i | 0 <= i < |g| :: CumulatedPriorities(CommonItemsOf(g[i]), p) == vs[i]
  {
    forall i | 0 <= i < |g| ensures CumulatedPriorities(CommonItemsOf(g[i]), p) == vs[i] {
      if i == 0 {} else if i == 1 {} else if i == 2 {} else if i == 3 {} else if i == 4 {} else {}
    }
  }

  /** The common items p, L, P, v, t and s have priorities 16, 38, 42, 22, 20
      and 19, 157 over the whole group. */
  lemma ExamplePrioritySum()
    ensures CumulatedPrioritySum(ExampleGroup(), Priorities(LetterChain())) == Success(157)
  {
    ExampleFirstPriority();
    ExampleSecondPriority();
    ExampleThirdPriority();
    ExampleFourthPriority();
    ExampleFifthPriority();
    ExampleSixthPriority();
    SixRucksacksTotal(ExampleGroup(), Priorities(LetterChain()));
  }
}
