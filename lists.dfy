/** Sequence helpers shared by the two draft editors. */
module Lists {

  datatype Option<T> = None | Some(value: T)

  /** The elements of `s` whose position differs from `index`, in their
      original order: the array `filter((_, i) => i !== index)` that both
      editors use to drop a row. An `index` outside `s` drops nothing. */
  function Without<T>(s: seq<T>, index: int): (r: seq<T>)
    decreases |s|
  {
    if s == [] then []
    else (if index == 0 then [] else [s[0]]) + Without(s[1..], index - 1)
  }

  /** Dropping a position inside the sequence removes exactly that element. */
  lemma {:induction false} WithoutInRange<T>(s: seq<T>, index: int)
    requires 0 <= index < |s|
    ensures Without(s, index) == s[..index] + s[index + 1..]
    decreases |s|
  {
    var t := s[1..];
    if index == 0 {
      WithoutOutOfRange(t, -1);
      assert s[..0] + s[1..] == t;
    } else {
      WithoutInRange(t, index - 1);
      assert Without(s, index) == [s[0]] + (t[..index - 1] + t[index..]);
      assert t[index..] == s[index + 1..];
      assert [s[0]] + t[..index - 1] == s[..index];
    }
  }

  /** Dropping a position outside the sequence changes nothing. */
  lemma {:induction false} WithoutOutOfRange<T>(s: seq<T>, index: int)
    requires index < 0 || index >= |s|
    ensures Without(s, index) == s
  {
    if s != [] {
      WithoutOutOfRange(s[1..], index - 1);
      assert [s[0]] + s[1..] == s;
    }
  }

  /** Element-wise view: one element fewer, the ones before `index` in place,
      the ones after it shifted down by one. */
  lemma WithoutAt<T>(s: seq<T>, index: int)
    requires 0 <= index < |s|
    ensures |Without(s, index)| == |s| - 1
    ensures forall j :: 0 <= j < index ==> Without(s, index)[j] == s[j]
    ensures forall j :: index <= j < |s| - 1 ==> Without(s, index)[j] == s[j + 1]
  {
    WithoutInRange(s, index);
  }

  /** Dropping the element just appended gives back the original sequence. */
  lemma WithoutAppended<T>(s: seq<T>, x: T)
    ensures Without(s + [x], |s|) == s
  {
    WithoutInRange(s + [x], |s|);
    assert (s + [x])[..|s|] == s;
  }
}
