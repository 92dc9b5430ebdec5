/** Generic helpers used by the scheduler model: an optional value, duplicate
    freedom, Python's substring test `pat in text`, and Python's `list.remove`
    together with the order-preserving erasure it amounts to on a list without
    duplicates.
 */
module Common {

  /** Python's `None` or a present value. */
  datatype Option<+T> = None | Some(value: T)

  /** No element occurs twice in `s`. */
  predicate NoDuplicates<T(==)>(s: seq<T>) {
    forall i, j :: 0 <= i < j < |s| ==> s[i] != s[j]
  }

  /** `s` lists every element of `keys` exactly once (a dict's iteration order). */
  ghost predicate IsEnumeration<T(!new)>(s: seq<T>, keys: set<T>) {
    NoDuplicates(s) && (forall x :: x in s <==> x in keys)
  }

  /** `pat` occurs in `text` starting at position `i`. */
  predicate OccursAt(text: string, pat: string, i: int) {
    0 <= i && i + |pat| <= |text| && text[i..i + |pat|] == pat
  }

  /** `pat` occurs somewhere in `text`. */
  ghost predicate Occurs(text: string, pat: string) {
    exists i :: 0 <= i <= |text| && OccursAt(text, pat, i)
  }

  /** `text` begins with `pat`, compared character by character. */
  predicate StartsWith(text: string, pat: string)
    decreases |pat|
  {
    |pat| == 0 || (|text| > 0 && text[0] == pat[0] && StartsWith(text[1..], pat[1..]))
  }

  lemma {:induction false} StartsWithSpec(text: string, pat: string)
    ensures StartsWith(text, pat) <==> |pat| <= |text| && text[..|pat|] == pat
    decreases |pat|
  {
    if |pat| > 0 && |text| > 0 {
      StartsWithSpec(text[1..], pat[1..]);
      if |pat| <= |text| {
        assert text[..|pat|] == [text[0]] + text[1..][..|pat| - 1];
        assert pat == [pat[0]] + pat[1..];
      }
    }
  }

  /** Python's `pat in text` on strings, as a left-to-right scan. */
  predicate Contains(text: string, pat: string)
    decreases |text|
  {
    StartsWith(text, pat) || (|text| > 0 && Contains(text[1..], pat))
  }

  /** An occurrence in the tail of `text` is an occurrence in `text` one
      position further on. */
  lemma OccursShift(text: string, pat: string, i: int)
    requires |text| > 0 && 0 <= i
    ensures OccursAt(text[1..], pat, i) <==> OccursAt(text, pat, i + 1)
  {
    if i + |pat| <= |text| - 1 {
      assert text[1..][i..i + |pat|] == text[i + 1..i + 1 + |pat|];
    }
  }

  /** The scan finds `pat` exactly when it occurs at some position of `text`. */
  lemma {:induction false} ContainsSpec(text: string, pat: string)
    ensures Contains(text, pat) <==> Occurs(text, pat)
    decreases |text|
  {
    StartsWithSpec(text, pat);
    if StartsWith(text, pat) {
      assert OccursAt(text, pat, 0);
    } else if |text| > 0 {
      ContainsSpec(text[1..], pat);
      if Occurs(text, pat) {
        var i :| 0 <= i <= |text| && OccursAt(text, pat, i);
        assert i > 0;
        OccursShift(text, pat, i - 1);
      }
      if Contains(text[1..], pat) {
        var i :| 0 <= i <= |text[1..]| && OccursAt(text[1..], pat, i);
        OccursShift(text, pat, i);
      }
    }
  }

  /** Cutting `n + 1` elements off the front of `s` takes its head and `n`
      elements of its tail. Stated for every `n` so that it can be called
      before the bound on `n` is known. */
  lemma HeadAndPrefix<T>(s: seq<T>, n: int)
    ensures 0 <= n < |s| ==> s[..n + 1] == [s[0]] + s[1..][..n]
  {
    if 0 <= n < |s| {
      assert s[..n + 1] == [s[0]] + s[1..][..n];
    }
  }

  /** Position of the first occurrence of `x` in `s`. */
  function IndexOf<T(==)>(s: seq<T>, x: T): (k: nat)
    requires x in s
    ensures k < |s| && s[k] == x && x !in s[..k]
  {
    if s[0] == x then 0
    else
      var j := IndexOf(s[1..], x);
      HeadAndPrefix(s, j);
      1 + j
  }

  /** Python's `s.remove(x)`: drops the first occurrence of `x`. Python raises
      when `x` is absent; every caller in the bot tests `x in s` first. */
  function RemoveFirst<T(==)>(s: seq<T>, x: T): (r: seq<T>)
    requires x in s
    ensures |r| == |s| - 1
    ensures r == s[..IndexOf(s, x)] + s[IndexOf(s, x) + 1..]
  {
    if s[0] == x then s[1..]
    else
      var t := RemoveFirst(s[1..], x);
      var k := IndexOf(s[1..], x);
      assert s[..k + 1] == [s[0]] + s[1..][..k];
      assert s[k + 2..] == s[1..][k + 1..];
      [s[0]] + t
  }

  /** `s` with every occurrence of `x` dropped and the rest kept in order. */
  function Erase<T(==,!new)>(s: seq<T>, x: T): (r: seq<T>)
    ensures forall y :: y in r <==> y in s && y != x
    ensures NoDuplicates(s) ==> NoDuplicates(r)
  {
    if |s| == 0 then []
    else if s[0] == x then Erase(s[1..], x)
    else
      var t := Erase(s[1..], x);
      assert NoDuplicates(s) ==> NoDuplicates(s[1..]) && s[0] !in s[1..] by {
        if NoDuplicates(s) {
          NoDuplicatesTail(s);
        }
      }
      [s[0]] + t
  }

  /** On a list without duplicates, `list.remove` erases the element: it keeps
      every other entry in its relative order and leaves no copy behind. */
  lemma {:induction false} RemoveFirstIsErase<T(!new)>(s: seq<T>, x: T)
    requires x in s
    requires NoDuplicates(s)
    ensures RemoveFirst(s, x) == Erase(s, x)
    ensures x !in RemoveFirst(s, x)
  {
    if s[0] == x {
      NoDuplicatesTail(s);
      EraseAbsent(s[1..], x);
    } else {
      NoDuplicatesTail(s);
      RemoveFirstIsErase(s[1..], x);
      assert RemoveFirst(s, x) == [s[0]] + RemoveFirst(s[1..], x) by {
        var k := IndexOf(s[1..], x);
        assert IndexOf(s, x) == k + 1;
        assert s[..k + 1] == [s[0]] + s[1..][..k];
        assert s[k + 2..] == s[1..][k + 1..];
      }
    }
  }

  /** Python's `if x in s: s.remove(x)`. */
  function RemoveIfPresent<T(==,!new)>(s: seq<T>, x: T): (r: seq<T>)
    ensures x !in s ==> r == s
    ensures x in s ==> r == RemoveFirst(s, x)
    ensures NoDuplicates(s) ==> r == Erase(s, x) && x !in r
  {
    if x in s then
      RemoveFirstWhenUnique(s, x);
      RemoveFirst(s, x)
    else
      EraseAbsent(s, x);
      s
  }

  lemma RemoveFirstWhenUnique<T(!new)>(s: seq<T>, x: T)
    requires x in s
    ensures NoDuplicates(s) ==> RemoveFirst(s, x) == Erase(s, x) && x !in RemoveFirst(s, x)
  {
    if NoDuplicates(s) {
      RemoveFirstIsErase(s, x);
    }
  }

  /** The tail of a duplicate-free list is duplicate-free and misses the head. */
  lemma NoDuplicatesTail<T>(s: seq<T>)
    requires |s| > 0 && NoDuplicates(s)
    ensures NoDuplicates(s[1..]) && s[0] !in s[1..]
  {
  }

  /** Erasing an element that is not there changes nothing. */
  lemma {:induction false} EraseAbsent<T(!new)>(s: seq<T>, x: T)
    requires x !in s
    ensures Erase(s, x) == s
  {
    if |s| > 0 {
      assert x !in s[1..];
      EraseAbsent(s[1..], x);
    }
  }
}
