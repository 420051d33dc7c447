/**
 * The few Kotlin standard-library operations on lists and strings that the
 * two screens rely on, written as functions over sequences. A Kotlin
 * `String` is a `seq<char>`, a `List<T>` a `seq<T>`; equality is `equals`.
 */
module KotlinText {

  /** `List.indexOf` / `String.indexOf(char)`: the first index holding `x`, or -1. */
  function IndexOf<T(==)>(s: seq<T>, x: T): (i: int)
    ensures -1 <= i < |s|
    ensures i == -1 <==> x !in s
    ensures 0 <= i ==> s[i] == x && x !in s[..i]
  {
    if s == [] then -1
    else if s[0] == x then 0
    else
      var j := IndexOf(s[1..], x);
      if j < 0 then -1
      else
        assert s[..j + 1] == [s[0]] + s[1..][..j];
        j + 1
  }

  /**
   * `String.substringBefore(delimiter)` for a one-character delimiter: the
   * text before the first occurrence of `d`, or the whole string when `d`
   * does not occur.
   */
  function SubstringBefore(s: string, d: char): (r: string)
    ensures d !in r
    ensures d in s ==> |r| < |s| && r == s[..|r|] && s[|r|] == d
    ensures d !in s ==> r == s
  {
    var i := IndexOf(s, d);
    if i < 0 then s else s[..i]
  }

  /**
   * `String.substringAfter(delimiter)` for a one-character delimiter: the
   * text after the first occurrence of `d`, or the whole string when `d`
   * does not occur.
   */
  function SubstringAfter(s: string, d: char): (r: string)
    ensures d in s ==> SubstringBefore(s, d) + [d] + r == s
    ensures d !in s ==> r == s
  {
    var i := IndexOf(s, d);
    if i < 0 then s
    else
      assert s == s[..i] + [d] + s[i + 1..];
      s[i + 1..]
  }

  /**
   * `MutableList.remove(element)`: drops the first element equal to `x`
   * and leaves the list as it was when there is none.
   */
  function RemoveFirst<T(==)>(s: seq<T>, x: T): (r: seq<T>)
    ensures x !in s ==> r == s
    ensures x in s ==> exists i :: 0 <= i < |s| && s[i] == x && x !in s[..i] &&
                                   r == s[..i] + s[i + 1..]
    ensures x in s ==> multiset(r) == multiset(s) - multiset{x}
  {
    var i := IndexOf(s, x);
    if i < 0 then s
    else
      assert s == s[..i] + [x] + s[i + 1..];
      s[..i] + s[i + 1..]
  }

  /** The elements of `s` other than `x`, in their order in `s`. */
  function Without<T(==)>(s: seq<T>, x: T): (r: seq<T>)
    ensures x !in r
  {
    if s == [] then []
    else if s[0] == x then Without(s[1..], x)
    else [s[0]] + Without(s[1..], x)
  }

  lemma {:induction false} WithoutAppend<T>(a: seq<T>, b: seq<T>, x: T)
    ensures Without(a + b, x) == Without(a, x) + Without(b, x)
  {
    if a == [] {
      assert a + b == b;
    } else {
      assert (a + b)[1..] == a[1..] + b;
      WithoutAppend(a[1..], b, x);
    }
  }

  /** Removing the first `x` leaves every other element, in its order. */
  lemma RemoveFirstKeepsOthers<T>(s: seq<T>, x: T)
    ensures Without(RemoveFirst(s, x), x) == Without(s, x)
  {
    var i := IndexOf(s, x);
    if 0 <= i {
      assert s == s[..i] + ([x] + s[i + 1..]);
      WithoutAppend(s[..i], [x] + s[i + 1..], x);
      WithoutAppend(s[..i], s[i + 1..], x);
      assert ([x] + s[i + 1..])[1..] == s[i + 1..];
    }
  }
}
