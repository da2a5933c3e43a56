/**
 * Pivot's composite keys: the texts of several grouping columns joined with
 * `|` into one text, and that text split on `|` again to recover them.
 */
module CompositeKeys {
  import opened Text

  /** `parts.join("|")`. */
  function JoinKey(parts: seq<string>): string
  {
    if parts == [] then ""
    else if |parts| == 1 then parts[0]
    else parts[0] + "|" + JoinKey(parts[1..])
  }

  /** `s.split('|')`: the pieces between the bars, so one more piece than bars. */
  function Split(s: string): (r: seq<string>)
    ensures |r| >= 1
    decreases |s|
  {
    var i := IndexOf(s, '|');
    if i == |s| then [s] else [s[..i]] + Split(s[i + 1..])
  }

  predicate NoBar(s: string)
  {
    forall j :: 0 <= j < |s| ==> s[j] != '|'
  }

  lemma BarIndexOfJoin(a: string, b: string)
    requires NoBar(a)
    ensures IndexOf(a + "|" + b, '|') == |a|
    ensures (a + "|" + b)[..|a|] == a && (a + "|" + b)[|a| + 1..] == b
    decreases |a|
  {
    if a != [] {
      assert (a + "|" + b)[1..] == a[1..] + "|" + b;
      BarIndexOfJoin(a[1..], b);
    }
  }

  /** Splitting undoes joining when no part holds a bar (and there is at least one part). */
  lemma {:induction false} SplitJoinKey(parts: seq<string>)
    requires |parts| >= 1 && forall k :: 0 <= k < |parts| ==> NoBar(parts[k])
    ensures Split(JoinKey(parts)) == parts
  {
    if |parts| == 1 {
      assert IndexOf(parts[0], '|') == |parts[0]|;
    } else {
      var rest := parts[1..];
      assert forall k :: 0 <= k < |rest| ==> NoBar(rest[k]) by {
        forall k | 0 <= k < |rest| ensures NoBar(rest[k]) { assert rest[k] == parts[k + 1]; }
      }
      SplitJoinKey(rest);
      BarIndexOfJoin(parts[0], JoinKey(rest));
      assert parts == [parts[0]] + rest;
    }
  }

  /** Splitting a joined key gives at least as many pieces as there were parts. */
  lemma {:induction false} SplitJoinKeyLength(parts: seq<string>)
    ensures |Split(JoinKey(parts))| >= |parts|
  {
    if |parts| > 1 {
      SplitJoinKeyLength(parts[1..]);
      SplitAfterBar(parts[0], JoinKey(parts[1..]));
    }
  }

  /** A joined text splits into the pieces of its front part followed by those of the rest. */
  lemma {:induction false} SplitAfterBar(a: string, b: string)
    ensures |Split(a + "|" + b)| == |Split(a)| + |Split(b)|
    decreases |a|
  {
    var s := a + "|" + b;
    var i := IndexOf(a, '|');
    if i == |a| {
      BarIndexOfJoin(a, b);
    } else {
      var a' := a[i + 1..];
      assert forall j :: 0 <= j <= i ==> s[j] == a[j];
      assert IndexOf(s, '|') == i;
      assert s[..i] == a[..i];
      assert s[i + 1..] == a' + "|" + b;
      assert Split(s) == [a[..i]] + Split(a' + "|" + b);
      assert Split(a) == [a[..i]] + Split(a');
      SplitAfterBar(a', b);
    }
  }

  /** Two different lists of values can give the same key: a value holding a bar is read back as two. */
  lemma JoinKeyCollision()
    ensures JoinKey(["A|B"]) == JoinKey(["A", "B"])
    ensures Split(JoinKey(["A|B"])) == ["A", "B"]
    ensures JoinKey([]) == JoinKey([""])
  {
    assert ["A", "B"][1..] == ["B"];
    assert JoinKey(["A", "B"]) == "A" + "|" + "B";
    BarIndexOfJoin("A", "B");
    assert IndexOf("B", '|') == 1;
  }
}
