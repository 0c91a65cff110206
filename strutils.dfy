/**
 * The string utilities of the library: splitting a string on a delimiter
 * (`dl_strparse`), copying while dropping spaces (`dl_strncpclean`) and
 * appending with a delimiter under a length bound (`dl_addtostring`). Each is
 * specified by a pure function and implemented by a method that refines it.
 */
module StrUtils {
  import opened CStd

  // ---------------------------------------------------------------------
  // Splitting and joining

  /**
   * The parts of `s` from index `beg` on, between the non-overlapping
   * occurrences of `d` found from left to right. An empty delimiter, or one
   * that does not occur, gives the rest of the string as the only part.
   */
  function Parts(s: string, d: string, beg: nat): (parts: seq<string>)
    requires beg <= |s|
    ensures |parts| >= 1
    decreases |s| - beg
  {
    if d == [] then [s[beg..]]
    else match FindFrom(s, d, beg)
      case None => [s[beg..]]
      case Some(i) => [s[beg..i]] + Parts(s, d, i + |d|)
  }

  /** The parts of `s` split on `d`. */
  function Split(s: string, d: string): seq<string>
  {
    Parts(s, d, 0)
  }

  /** The parts with `d` between each pair of neighbours. */
  function Join(parts: seq<string>, d: string): string
  {
    if |parts| == 0 then []
    else if |parts| == 1 then parts[0]
    else parts[0] + d + Join(parts[1..], d)
  }

  /** Joining a part in front of at least one other puts a delimiter after it. */
  lemma JoinCons(x: string, rest: seq<string>, d: string)
    requires |rest| >= 1
    ensures Join([x] + rest, d) == x + d + Join(rest, d)
  {
    assert ([x] + rest)[1..] == rest;
  }

  /** Joining the parts from `beg` on gives back the rest of the string. */
  lemma {:induction false} JoinParts(s: string, d: string, beg: nat)
    requires beg <= |s|
    ensures Join(Parts(s, d, beg), d) == s[beg..]
    decreases |s| - beg
  {
    if d != [] && FindFrom(s, d, beg).Some? {
      var i := FindFrom(s, d, beg).value;
      var rest := Parts(s, d, i + |d|);
      JoinParts(s, d, i + |d|);
      FindFromFound(s, d, beg);
      assert Parts(s, d, beg) == [s[beg..i]] + rest;
      JoinCons(s[beg..i], rest, d);
      SliceThree(s, beg, i, i + |d|);
    }
  }

  /** Joining the parts with the delimiter gives back the string that was split. */
  lemma JoinSplit(s: string, d: string)
    ensures Join(Split(s, d), d) == s
  {
    JoinParts(s, d, 0);
  }

  /** No part from `beg` on holds an occurrence of a non-empty delimiter. */
  lemma {:induction false} PartsFree(s: string, d: string, beg: nat)
    requires d != [] && beg <= |s|
    ensures forall k :: 0 <= k < |Parts(s, d, beg)| ==> Find(Parts(s, d, beg)[k], d).None?
    decreases |s| - beg
  {
    match FindFrom(s, d, beg)
    case None =>
      FindInSliceNone(s, d, beg, |s|, 0);
      assert s[beg..|s|] == s[beg..];
    case Some(i) =>
      PartsFree(s, d, i + |d|);
      FindInSliceNone(s, d, beg, i, 0);
  }

  /** No part holds an occurrence of a non-empty delimiter. */
  lemma SplitPartsFree(s: string, d: string)
    requires d != []
    ensures forall k :: 0 <= k < |Split(s, d)| ==> Find(Split(s, d)[k], d).None?
  {
    PartsFree(s, d, 0);
  }

  /**
   * The number of non-overlapping occurrences of `d` in `s` from index `k`
   * on, counted by a scan that moves one character on at a mismatch and past
   * the whole delimiter at a match.
   */
  function Occurrences(s: string, d: string, k: nat): nat
    decreases |s| - k
  {
    if d == [] || k + |d| > |s| then 0
    else if s[k..k + |d|] == d then 1 + Occurrences(s, d, k + |d|)
    else Occurrences(s, d, k + 1)
  }

  /** The count from `k` on starts at the first occurrence that a search from `k` finds. */
  lemma {:induction false} OccurrencesFind(s: string, d: string, k: nat)
    requires d != []
    ensures Occurrences(s, d, k) ==
      (match FindFrom(s, d, k) case None => 0 case Some(i) => 1 + Occurrences(s, d, i + |d|))
    decreases |s| - k
  {
    if k + |d| <= |s| && s[k..k + |d|] != d {
      OccurrencesFind(s, d, k + 1);
    }
  }

  /** A split from `beg` gives one part more than the occurrences from `beg` on. */
  lemma {:induction false} PartsCount(s: string, d: string, beg: nat)
    requires d != [] && beg <= |s|
    ensures |Parts(s, d, beg)| == 1 + Occurrences(s, d, beg)
    decreases |s| - beg
  {
    OccurrencesFind(s, d, beg);
    if FindFrom(s, d, beg).Some? {
      PartsCount(s, d, FindFrom(s, d, beg).value + |d|);
    }
  }

  /** A split gives one part more than there are occurrences of the delimiter. */
  lemma SplitCount(s: string, d: string)
    requires d != []
    ensures |Split(s, d)| == 1 + Occurrences(s, d, 0)
  {
    PartsCount(s, d, 0);
  }

  /** At the end of the string there is one, empty, part. */
  lemma PartsAtEnd(s: string, d: string)
    ensures Parts(s, d, |s|) == [[]]
  {
    assert s[|s|..] == [];
    if d != [] {
      assert FindFrom(s, d, |s|).None?;
    }
  }

  /** Past the last delimiter of `s`, appending one more gives one more, empty, part. */
  lemma PartsTrailingLast(s: string, c: char, k: nat)
    requires k <= |s| && FindFrom(s, [c], k).None?
    ensures Parts(s + [c], [c], k) == [s[k..], ""]
  {
    var t := s + [c];
    FindPastPrefix(s, [c], [c], k);
    FindAtEnd(s, [c]);
    assert FindFrom(t, [c], k) == Some(|s|);
    assert Parts(t, [c], k) == [t[k..|s|]] + Parts(t, [c], |s| + 1);
    SliceLeft(s, [c], k, |s|);
    assert t[k..|s|] == s[k..];
    PartsAtEnd(t, [c]);
  }

  /** The parts from `k` on, with a one-character delimiter appended to the string. */
  lemma {:induction false} PartsTrailing(s: string, c: char, k: nat)
    requires k <= |s|
    ensures Parts(s + [c], [c], k) == Parts(s, [c], k) + [""]
    decreases |s| - k
  {
    match FindFrom(s, [c], k)
    case None =>
      PartsTrailingLast(s, c, k);
    case Some(i) =>
      var t := s + [c];
      FindInPrefix(s, [c], [c], k);
      assert Parts(t, [c], k) == [t[k..i]] + Parts(t, [c], i + 1);
      assert Parts(s, [c], k) == [s[k..i]] + Parts(s, [c], i + 1);
      SliceLeft(s, [c], k, i);
      PartsTrailing(s, c, i + 1);
  }

  /** A trailing one-character delimiter adds one empty part at the end. */
  lemma SplitTrailingDelimiter(s: string, c: char)
    ensures Split(s + [c], [c]) == Split(s, [c]) + [""]
  {
    PartsTrailing(s, c, 0);
  }

  /** A split whose next delimiter is at `i` cuts off the part before it and goes on at `next`, past it. */
  lemma PartsStep(s: string, d: string, beg: nat, i: nat, next: nat)
    requires d != [] && beg <= |s| && FindFrom(s, d, beg) == Some(i) && next == i + |d|
    ensures Parts(s, d, beg) == [s[beg..i]] + Parts(s, d, next)
  {
  }

  /** Taking the part before the next delimiter keeps the parts taken and the parts left together. */
  lemma PartsAdvance(parts: seq<string>, s: string, d: string, beg: nat, del: nat, whole: seq<string>)
    requires d != [] && beg <= |s| && FindFrom(s, d, beg) == Some(del)
    requires parts + Parts(s, d, beg) == whole
    ensures del + |d| <= |s| && beg <= del
    ensures (parts + [s[beg..del]]) + Parts(s, d, del + |d|) == whole
  {
    PartsStep(s, d, beg, del, del + |d|);
    Assoc(parts, [s[beg..del]], Parts(s, d, del + |d|));
  }

  /** A split that finds no more delimiters keeps the rest as its last part. */
  lemma PartsLast(s: string, d: string, beg: nat)
    requires beg <= |s| && (d == [] || FindFrom(s, d, beg).None?)
    ensures Parts(s, d, beg) == [s[beg..]]
  {
  }

  /** With no delimiter left, the rest of the string is the last part. */
  lemma PartsFinish(parts: seq<string>, s: string, d: string, beg: nat, whole: seq<string>)
    requires beg <= |s| && (d == [] || FindFrom(s, d, beg).None?)
    requires parts + Parts(s, d, beg) == whole
    ensures parts + [s[beg..|s|]] == whole
  {
    PartsLast(s, d, beg);
    assert s[beg..|s|] == s[beg..];
  }

  /** After a prefix `x`, the first delimiter of `pd + rest` is the first one of `pd`. */
  lemma FindJoinHead(s: string, x: string, pd: string, rest: string, d: string, n: nat)
    requires s == x + (pd + rest) && FindFrom(pd, d, 0) == Some(n)
    ensures FindFrom(s, d, |x|) == Some(|x| + n)
  {
    FindInPrefix(pd, rest, d, 0);
    FindInSuffix(x, pd + rest, d, 0, n);
  }

  /** A split whose next delimiter ends the part `p` at `beg` cuts that part off. */
  lemma PartsAfterHead(s: string, d: string, beg: nat, p: string, next: nat)
    requires d != [] && beg + |p| <= |s| && FindFrom(s, d, beg) == Some(beg + |p|)
    requires s[beg..beg + |p|] == p && next == beg + |p| + |d|
    ensures Parts(s, d, beg) == [p] + Parts(s, d, next)
  {
    PartsStep(s, d, beg, beg + |p|, next);
    assert [s[beg..beg + |p|]] == [p];
  }

  /** In `s`, a join placed after `x`, the first part is cut off at the first delimiter. */
  lemma JoinHeadStep(s: string, x: string, p: string, tail: seq<string>, d: string)
    requires d != [] && |tail| >= 1 && s == x + Join([p] + tail, d) && Find(p + d, d) == Some(|p|)
    ensures s == (x + p + d) + Join(tail, d)
    ensures Parts(s, d, |x|) == [p] + Parts(s, d, |x + p + d|)
  {
    var rest := Join(tail, d);
    JoinCons(p, tail, d);
    assert s == x + ((p + d) + rest);
    Regroup(x, p, d, rest);
    FindJoinHead(s, x, p + d, rest, d, |p|);
    assert s[|x|..|x| + |p|] == p;
    PartsAfterHead(s, d, |x|, p, |x + p + d|);
  }

  /** Splitting `s`, a join placed after a prefix `x`, from the end of `x` gives the parts back (see `SplitJoin`). */
  lemma {:induction false} PartsOfJoin(s: string, x: string, parts: seq<string>, d: string)
    requires d != [] && |parts| >= 1 && s == x + Join(parts, d)
    requires forall k :: 0 <= k < |parts| - 1 ==> Find(parts[k] + d, d) == Some(|parts[k]|)
    requires Find(parts[|parts| - 1], d).None?
    ensures Parts(s, d, |x|) == parts
    decreases |parts|
  {
    var p := parts[0];
    if |parts| == 1 {
      assert s == x + p;
      FindNoneInSuffix(x, p, d, 0);
      PartsLast(s, d, |x|);
      assert s[|x|..] == p;
    } else {
      var tail := parts[1..];
      assert [p] + tail == parts;
      JoinHeadStep(s, x, p, tail, d);
      forall k | 0 <= k < |tail| - 1 ensures Find(tail[k] + d, d) == Some(|tail[k]|) {
        assert tail[k] == parts[k + 1];
      }
      assert tail[|tail| - 1] == parts[|parts| - 1];
      PartsOfJoin(s, x + p + d, tail, d);
    }
  }

  /**
   * Splitting a join gives the parts back, when the delimiter is not empty,
   * no occurrence of it starts inside a part that a delimiter follows, and
   * the last part holds none.
   */
  lemma SplitJoin(parts: seq<string>, d: string)
    requires d != [] && |parts| >= 1
    requires forall k :: 0 <= k < |parts| - 1 ==> Find(parts[k] + d, d) == Some(|parts[k]|)
    requires Find(parts[|parts| - 1], d).None?
    ensures Split(Join(parts, d), d) == parts
  {
    assert Join(parts, d) == [] + Join(parts, d);
    PartsOfJoin(Join(parts, d), [], parts, d);
  }

  /** Appending a part to a non-empty list of parts appends it after a delimiter. */
  lemma {:induction false} JoinSnoc(parts: seq<string>, a: string, d: string)
    requires parts != []
    ensures Join(parts + [a], d) == Join(parts, d) + d + a
    decreases |parts|
  {
    if |parts| == 1 {
      assert parts + [a] == [parts[0], a];
    } else {
      assert (parts + [a])[1..] == parts[1..] + [a];
      JoinSnoc(parts[1..], a, d);
    }
  }

  /**
   * `dl_strparse`: split `str` on `delim`, returning the number of parts
   * and the list of them. With either argument NULL the list is released:
   * the result is 0 and the list pointer NULL.
   */
  method StrParse(str: Option<string>, delim: Option<string>) returns (count: int, list: Option<seq<string>>)
    ensures str.None? || delim.None? ==> count == 0 && list.None?
    ensures str.Some? && delim.Some? ==>
      list == Some(Split(str.value, delim.value)) && count == |list.value| >= 1
  {
    if str.None? || delim.None? {
      return 0, None;
    }
    var s, d := str.value, delim.value;
    var parts: seq<string> := [];
    var beg := 0;
    var stop := false;
    ghost var whole := Split(s, d);
    count := 0;
    while !stop
      invariant 0 <= beg <= |s| + |d|
      invariant count == |parts|
      invariant !stop ==> beg <= |s| && parts + Parts(s, d, beg) == whole
      invariant stop ==> parts == whole && count >= 1
      decreases if stop then 0 else |s| - beg + 1
    {
      var found := FindFrom(s, d, beg);
      var del: int;
      if found.None? || |d| == 0 {
        del := |s|;
        stop := true;
        PartsFinish(parts, s, d, beg, whole);
      } else {
        del := found.value;
        PartsAdvance(parts, s, d, beg, del, whole);
      }
      parts := parts + [s[beg..del]];
      count := count + 1;
      beg := del + |d|;
      if beg > |s| {
        break;
      }
    }
    list := Some(parts);
  }

  // ---------------------------------------------------------------------
  // Copying without spaces

  /** The characters of `s` other than the space, in order. */
  function Clean(s: string): string
  {
    if s == [] then []
    else Clean(s[..|s| - 1]) + (if s[|s| - 1] == ' ' then [] else [s[|s| - 1]])
  }

  /** Cleaning drops every space and nothing else, and never lengthens. */
  lemma {:induction false} CleanDropsSpaces(s: string)
    ensures ' ' !in Clean(s)
    ensures |Clean(s)| <= |s|
    ensures forall c :: c != ' ' ==> multiset(Clean(s))[c] == multiset(s)[c]
    decreases |s|
  {
    if s != [] {
      var init, last := s[..|s| - 1], s[|s| - 1];
      CleanDropsSpaces(init);
      assert s == init + [last];
      assert multiset(s) == multiset(init) + multiset{last};
      if last == ' ' {
        assert Clean(s) == Clean(init);
      } else {
        assert Clean(s) == Clean(init) + [last];
        assert multiset(Clean(s)) == multiset(Clean(init)) + multiset{last};
      }
    }
  }

  /** Cleaning a string with one more character keeps that character unless it is a space. */
  lemma CleanSnoc(s: string, c: char)
    ensures Clean(s + [c]) == Clean(s) + (if c == ' ' then [] else [c])
  {
    assert (s + [c])[..|s|] == s;
  }

  /** One more character of `s` adds itself to the cleaned prefix unless it is a space. */
  lemma CleanStep(s: string, i: nat)
    requires i < |s|
    ensures Clean(s[..i + 1]) == Clean(s[..i]) + (if s[i] == ' ' then [] else [s[i]])
    ensures |Clean(s[..i + 1])| <= |Clean(s)|
  {
    assert s[..i + 1] == s[..i] + [s[i]];
    CleanSnoc(s[..i], s[i]);
    CleanPrefixShorter(s, i + 1);
  }

  /** Cleaning distributes over concatenation. */
  lemma {:induction false} CleanAppend(a: string, b: string)
    ensures Clean(a + b) == Clean(a) + Clean(b)
    decreases |b|
  {
    if b != [] {
      var b', c := b[..|b| - 1], b[|b| - 1];
      var tail := if c == ' ' then [] else [c];
      assert b == b' + [c];
      Assoc(a, b', [c]);
      CleanSnoc(a + b', c);
      CleanSnoc(b', c);
      CleanAppend(a, b');
      Assoc(Clean(a), Clean(b'), tail);
    } else {
      assert a + b == a;
    }
  }

  /** A string without spaces is left as it is, and only such a string is. */
  lemma {:induction false} CleanIdentity(s: string)
    ensures Clean(s) == s <==> ' ' !in s
    decreases |s|
  {
    CleanDropsSpaces(s);
    if s != [] && ' ' !in s {
      assert ' ' !in s[..|s| - 1];
      CleanIdentity(s[..|s| - 1]);
    }
  }

  /** Cleaning twice is cleaning once. */
  lemma CleanIdempotent(s: string)
    ensures Clean(Clean(s)) == Clean(s)
  {
    CleanDropsSpaces(s);
    CleanIdentity(Clean(s));
  }

  /** Cleaning a prefix gives no more than cleaning the whole. */
  lemma CleanPrefixShorter(s: string, i: nat)
    requires i <= |s|
    ensures |Clean(s[..i])| <= |Clean(s)|
  {
    assert s[..i] + s[i..] == s;
    CleanAppend(s[..i], s[i..]);
  }

  /**
   * `dl_strncpclean`: copy the first `length` characters of `source` into
   * `dest` without their spaces, left justified and NUL terminated, and
   * return the number of characters copied. The caller provides at least
   * `length` source characters and room in `dest` for the copy and its NUL.
   */
  method StrNCpClean(dest: array<char>, source: string, length: int) returns (n: int)
    requires length <= |source|
    requires dest.Length > |Clean(source[..if length < 0 then 0 else length])|
    modifies dest
    ensures n == |Clean(source[..if length < 0 then 0 else length])|
    ensures dest[..n] == Clean(source[..if length < 0 then 0 else length])
    ensures dest[n] == '\0'
    ensures forall k :: n < k < dest.Length ==> dest[k] == old(dest[k])
  {
    ghost var src := source[..if length < 0 then 0 else length];
    var sidx := 0;
    var didx := 0;
    while sidx < length
      invariant 0 <= sidx <= |src|
      invariant didx == |Clean(src[..sidx])| <= |Clean(src)|
      invariant dest[..didx] == Clean(src[..sidx])
      invariant forall k :: didx <= k < dest.Length ==> dest[k] == old(dest[k])
    {
      CleanStep(src, sidx);
      assert src[sidx] == source[sidx];
      if source[sidx] != ' ' {
        dest[didx] := source[sidx];
        didx := didx + 1;
      }
      sidx := sidx + 1;
    }
    assert src[..sidx] == src;
    dest[didx] := '\0';
    n := didx;
  }

  // ---------------------------------------------------------------------
  // Appending under a length bound

  /** A C string variable that may be NULL. */
  class StrSlot {
    var value: Option<string>

    constructor (v: Option<string>)
      ensures value == v
    {
      value := v;
    }
  }

  /** The string after a successful append: `add` alone, or after the old string and the delimiter. */
  function Appended(cur: Option<string>, add: string, delim: string): (r: string)
    ensures cur.None? ==> r == Join([add], delim)
    ensures |r| + 1 == Needed(cur, add, delim)
    ensures cur.Some? ==> r[..|cur.value|] == cur.value && r[|cur.value|..] == delim + add
  {
    if cur.None? then add else cur.value + delim + add
  }

  /** The length, NUL included, that the append needs. */
  function Needed(cur: Option<string>, add: string, delim: string): int
  {
    (if cur.None? then |add| else |cur.value| + |delim| + |add|) + 1
  }

  /** Appending to a joined list of parts gives the join of the longer list. */
  lemma AppendedJoin(parts: seq<string>, add: string, delim: string)
    requires parts != []
    ensures Appended(Some(Join(parts, delim)), add, delim) == Join(parts + [add], delim)
  {
    JoinSnoc(parts, add, delim);
  }

  /** Appending each of `items` in turn to a NULL string, all of them accepted. */
  function AppendAll(items: seq<string>, delim: string): Option<string>
  {
    if items == [] then None
    else Some(Appended(AppendAll(items[..|items| - 1], delim), items[|items| - 1], delim))
  }

  /** Successive appends build the join of the items. */
  lemma {:induction false} AppendAllJoins(items: seq<string>, delim: string)
    ensures items == [] <==> AppendAll(items, delim).None?
    ensures items != [] ==> AppendAll(items, delim) == Some(Join(items, delim))
    decreases |items|
  {
    if |items| == 1 {
      assert AppendAll(items, delim) == Some(Appended(None, items[0], delim));
    } else if |items| > 1 {
      var init := items[..|items| - 1];
      var last := items[|items| - 1];
      assert init + [last] == items;
      AppendAllJoins(init, delim);
      AppendedJoin(init, last, delim);
      assert AppendAll(items, delim) == Some(Appended(AppendAll(init, delim), last, delim));
    }
  }

  /**
   * `dl_addtostring`: append `add` to the string in `slot`, after `delim`
   * when the string is not NULL. Returns -1 when `slot` or `add` is NULL,
   * -2 (string unchanged) when the result with its NUL would be longer than
   * `maxlen`, and 0 otherwise.
   */
  method AddToString(slot: StrSlot?, add: Option<string>, delim: string, maxlen: int) returns (rc: int)
    modifies slot
    ensures slot == null || add.None? ==> rc == -1
    ensures slot != null && add.Some? && Needed(old(slot.value), add.value, delim) > maxlen ==> rc == -2
    ensures slot != null && add.Some? && Needed(old(slot.value), add.value, delim) <= maxlen ==>
      rc == 0 && slot.value == Some(Appended(old(slot.value), add.value, delim)) && |slot.value.value| < maxlen
    ensures slot != null && rc != 0 ==> slot.value == old(slot.value)
  {
    if slot == null || add.None? {
      return -1;
    }
    var length := Needed(slot.value, add.value, delim);
    if length > maxlen {
      return -2;
    }
    slot.value := Some(Appended(slot.value, add.value, delim));
    rc := 0;
  }
}
