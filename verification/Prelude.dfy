/** Small shared vocabulary: optional values, results, and facts about joining strings. */
module Prelude {

  datatype Option<+T> = None | Some(value: T)

  datatype Result<+T, +E> = Ok(value: T) | Err(error: E)

  /** Whether a call's reply arrived; a call whose reply is lost may still have been executed. */
  datatype Reply = Answered | Lost(applied: bool)

  /** A separator that occurs in neither head splits a joined string in only one way. */
  lemma JoinIsUnique(sep: char, head: string, tail: string, head': string, tail': string)
    requires sep !in head && sep !in head'
    requires head + [sep] + tail == head' + [sep] + tail'
    ensures head == head' && tail == tail'
  {
    var whole := head + [sep] + tail;
    assert whole[|head|] == sep && whole[|head'|] == sep;
    assert forall i :: 0 <= i < |head| ==> whole[i] != sep;
    assert forall i :: 0 <= i < |head'| ==> whole[i] == head'[i] != sep;
    assert head == whole[..|head|] == head';
    assert tail == whole[|head| + 1..] == tail';
  }

  /** The position of a character's first occurrence, or the length. */
  function IndexOf(s: string, c: char): (i: nat)
    ensures i <= |s| && c !in s[..i] && (i < |s| <==> c in s) && (i < |s| ==> s[i] == c)
  {
    if |s| == 0 || s[0] == c then 0 else
      var j := IndexOf(s[1..], c);
      assert s == [s[0]] + s[1..] && s[..j + 1] == [s[0]] + s[1..][..j];
      j + 1
  }

  /** The separator after a head without it is the first one. */
  lemma FirstIsBetween(sep: char, head: string, tail: string)
    requires sep !in head
    ensures IndexOf(head + [sep] + tail, sep) == |head|
  {
    var s := head + [sep] + tail;
    var i := IndexOf(s, sep);
    assert s[|head|] == sep;
    assert forall k :: 0 <= k < i ==> s[..i][k] == s[k] != sep;
    assert forall k :: 0 <= k < |head| ==> s[k] == head[k] != sep;
  }

  /** The value an int64 keeps of an integer. */
  function Wrap64(x: int): int {
    (x + 0x8000_0000_0000_0000) % 0x1_0000_0000_0000_0000 - 0x8000_0000_0000_0000
  }
}
