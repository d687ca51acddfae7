/**
 * A mentor's skills are stored as one comma-joined string and read back by
 * splitting on commas, with the empty string read as "no skills".
 */
module Skills {

  predicate NoCommas(xs: seq<string>) {
    forall i :: 0 <= i < |xs| ==> ',' !in xs[i]
  }

  /** Python's `",".join(xs)`: the parts in order, one comma between each two. */
  function Join(xs: seq<string>): (r: string)
    ensures xs != [] ==> xs[0] <= r
  {
    if xs == [] then ""
    else if |xs| == 1 then xs[0]
    else xs[0] + "," + Join(xs[1..])
  }

  /** Joining comma-free parts gives one comma fewer than there are parts. */
  lemma {:induction false} JoinCount(xs: seq<string>)
    requires xs != [] && NoCommas(xs)
    ensures multiset(Join(xs))[','] == |xs| - 1
  {
    if |xs| > 1 {
      JoinCount(xs[1..]);
      assert ',' !in xs[0];
      assert multiset(xs[0])[','] == 0;
    }
  }

  /** Python's `s.split(",")`: never empty, and no part holds a comma. */
  function Split(s: string): (parts: seq<string>)
    ensures |parts| >= 1
    ensures NoCommas(parts)
  {
    if s == [] then [""]
    else
      var rest := Split(s[1..]);
      if s[0] == ',' then [""] + rest
      else [[s[0]] + rest[0]] + rest[1..]
  }

  /** The stored string as the list the API shows: `s.split(",") if s else []`. */
  function Decode(s: string): (skills: seq<string>)
    ensures skills == [] <==> s == ""
    ensures s != "" ==> |skills| == multiset(s)[','] + 1
    ensures NoCommas(skills)
  {
    if s == "" then [] else SplitCount(s); Split(s)
  }

  /** The text before the first comma (all of `s` when it has none). */
  function FirstSkill(s: string): (f: string)
    ensures f <= s
    ensures ',' !in f
    ensures |f| == |s| || s[|f|] == ','
  {
    if s == [] || s[0] == ',' then "" else [s[0]] + FirstSkill(s[1..])
  }

  /** `split(",")` yields one part more than there are commas. */
  lemma {:induction false} SplitCount(s: string)
    ensures |Split(s)| == multiset(s)[','] + 1
  {
    if s != [] {
      SplitCount(s[1..]);
      assert s == [s[0]] + s[1..];
    }
  }

  lemma {:induction false} SplitWithoutComma(a: string)
    requires ',' !in a
    ensures Split(a) == [a]
  {
    if a != [] {
      assert a[0] in a;
      assert forall c :: c in a[1..] ==> c in a;
      SplitWithoutComma(a[1..]);
      assert a == [a[0]] + a[1..];
    }
  }

  lemma {:induction false} SplitAfterFirst(a: string, b: string)
    requires ',' !in a
    ensures Split(a + "," + b) == [a] + Split(b)
  {
    var s := a + "," + b;
    if a == [] {
      assert s[1..] == b;
    } else {
      assert s[0] == a[0] && a[0] in a;
      assert forall c :: c in a[1..] ==> c in a;
      assert s[1..] == a[1..] + "," + b;
      SplitAfterFirst(a[1..], b);
      var rest := Split(s[1..]);
      assert rest == [a[1..]] + Split(b);
      assert Split(s) == [[a[0]] + rest[0]] + rest[1..];
      assert a == [a[0]] + a[1..];
    }
  }

  /** Splitting a join of comma-free parts gives the parts back. */
  lemma {:induction false} SplitJoin(xs: seq<string>)
    requires |xs| >= 1 && NoCommas(xs)
    ensures Split(Join(xs)) == xs
  {
    if |xs| == 1 {
      SplitWithoutComma(xs[0]);
    } else {
      SplitAfterFirst(xs[0], Join(xs[1..]));
      SplitJoin(xs[1..]);
    }
  }

  lemma {:induction false} JoinExtendFirst(c: char, parts: seq<string>)
    requires |parts| >= 1
    ensures Join([[c] + parts[0]] + parts[1..]) == [c] + Join(parts)
  {
    var q := [[c] + parts[0]] + parts[1..];
    if |parts| > 1 {
      assert q[1..] == parts[1..];
    }
  }

  /** Joining the parts of a split gives the original string back. */
  lemma {:induction false} JoinSplit(s: string)
    ensures Join(Split(s)) == s
  {
    if s != [] {
      var rest := Split(s[1..]);
      JoinSplit(s[1..]);
      if s[0] == ',' {
        assert ([""] + rest)[1..] == rest;
      } else {
        JoinExtendFirst(s[0], rest);
      }
    }
  }

  /** Every stored skills string reads back to a list that re-encodes to it. */
  lemma EncodeDecode(s: string)
    ensures Join(Decode(s)) == s
  {
    JoinSplit(s);
  }

  /**
   * A comma-free skill list survives storage exactly when it is not `[""]`,
   * which is stored as "" and read back as the empty list.
   */
  lemma {:induction false} DecodeEncode(xs: seq<string>)
    requires NoCommas(xs)
    ensures Decode(Join(xs)) == xs <==> xs != [""]
  {
    if |xs| == 1 && xs[0] != "" {
      SplitJoin(xs);
    } else if |xs| >= 2 {
      assert Join(xs) == xs[0] + "," + Join(xs[1..]);
      assert Join(xs)[|xs[0]|] == ',';
      SplitJoin(xs);
    }
  }

  /** The listing's "first skill" sort key is the text before the first comma. */
  lemma {:induction false} FirstOfDecode(s: string)
    ensures (if Decode(s) == [] then "" else Decode(s)[0]) == FirstSkill(s)
  {
    if s != "" {
      SplitHeadIsFirstSkill(s);
    }
  }

  lemma {:induction false} SplitHeadIsFirstSkill(s: string)
    ensures Split(s)[0] == FirstSkill(s)
  {
    if s != [] && s[0] != ',' {
      SplitHeadIsFirstSkill(s[1..]);
    }
  }
}
