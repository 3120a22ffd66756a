/** splitIntoParagraphs: the event description cut at every blank line,
    exactly as Go's strings.Split(t, "\n\n") cuts it, scanning left to right
    and never letting two separators overlap. */
module Paragraphs {
  import opened Wrappers

  const Separator: string := "\n\n"

  /** A separator starts at position i of s. */
  predicate SeparatorAt(s: string, i: int) {
    0 <= i && i + 1 < |s| && s[i] == '\n' && s[i + 1] == '\n'
  }

  predicate ContainsSeparator(s: string) {
    exists i :: 0 <= i < |s| && SeparatorAt(s, i)
  }

  predicate EndsWithNewline(s: string) {
    |s| > 0 && s[|s| - 1] == '\n'
  }

  /** strings.Index(s[from..], "\n\n"), offset by `from`. */
  function FindSeparator(s: string, from: nat): (r: Option<nat>)
    requires from <= |s|
    ensures r.Some? ==> from <= r.value && SeparatorAt(s, r.value)
    ensures r.Some? ==> forall j :: from <= j < r.value ==> !SeparatorAt(s, j)
    ensures r.None? ==> forall j :: from <= j ==> !SeparatorAt(s, j)
    decreases |s| - from
  {
    if from + 1 >= |s| then None
    else if s[from] == '\n' && s[from + 1] == '\n' then Some(from)
    else FindSeparator(s, from + 1)
  }

  /** strings.Join(ps, "\n\n"). */
  function Join(ps: seq<string>): string {
    if |ps| == 0 then ""
    else if |ps| == 1 then ps[0]
    else ps[0] + Separator + Join(ps[1..])
  }

  /** The pieces strings.Split can return: at least one, none containing a
      separator, and none but the last ending in a newline (a newline
      there would have begun an earlier separator). */
  predicate SplitShaped(ps: seq<string>) {
    && |ps| >= 1
    && (forall i :: 0 <= i < |ps| ==> !ContainsSeparator(ps[i]))
    && (forall i :: 0 <= i < |ps| - 1 ==> !EndsWithNewline(ps[i]))
  }

  function Split(t: string): (ps: seq<string>)
    ensures SplitShaped(ps)
    ensures Join(ps) == t
    decreases |t|
  {
    match FindSeparator(t, 0)
    case None => [t]
    case Some(m) =>
      var head := t[..m];
      var rest := Split(t[m + 2..]);
      assert !ContainsSeparator(head) by {
        forall j | SeparatorAt(head, j) ensures SeparatorAt(t, j) { }
      }
      assert !EndsWithNewline(head) by {
        if EndsWithNewline(head) { assert SeparatorAt(t, m - 1); }
      }
      assert t == head + Separator + t[m + 2..];
      [head] + rest
  }

  /** Splitting a joined sequence of well-shaped pieces gives the pieces
      back, so Split is the only well-shaped way to cut a description. */
  lemma {:induction false} SplitJoin(ps: seq<string>)
    requires SplitShaped(ps)
    ensures Split(Join(ps)) == ps
    decreases |ps|
  {
    var t := Join(ps);
    if |ps| == 1 {
      assert !ContainsSeparator(t);
    } else {
      var head, tail := ps[0], Join(ps[1..]);
      assert t == head + Separator + tail;
      forall j | 0 <= j < |head| ensures !SeparatorAt(t, j) {
        if j + 1 < |head| {
          if SeparatorAt(t, j) { assert SeparatorAt(head, j); }
        } else {
          assert !EndsWithNewline(head);
        }
      }
      assert SeparatorAt(t, |head|);
      assert FindSeparator(t, 0) == Some(|head|);
      assert t[..|head|] == head && t[|head| + 2..] == tail;
      assert SplitShaped(ps[1..]) by {
        forall i | 0 <= i < |ps[1..]| ensures !ContainsSeparator(ps[1..][i]) {
          assert ps[1..][i] == ps[i + 1];
        }
        forall i | 0 <= i < |ps[1..]| - 1 ensures !EndsWithNewline(ps[1..][i]) {
          assert ps[1..][i] == ps[i + 1];
        }
      }
      SplitJoin(ps[1..]);
      assert ps == [head] + ps[1..];
    }
  }

  lemma SplitExamples()
    ensures Split("") == [""]
    ensures Split("Para1\n\nPara2") == ["Para1", "Para2"]
    ensures Split("a\n\n\nb") == ["a", "\nb"]
  {
    SplitJoin([""]);
    assert Join(["Para1", "Para2"]) == "Para1\n\nPara2";
    SplitJoin(["Para1", "Para2"]);
    assert Join(["a", "\nb"]) == "a\n\n\nb";
    SplitJoin(["a", "\nb"]);
  }
}
