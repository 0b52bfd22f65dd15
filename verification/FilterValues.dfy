/** Repeatable, comma-separated filter flags. */
module FilterValues {
  import opened Wrappers
  import opened Sequences
  import opened Text

  /** The pieces of a string between its commas. */
  function Split(s: string): (r: seq<string>)
    ensures r != []
  {
    if s == "" then [""]
    else
      var rest := Split(s[1..]);
      if s[0] == ',' then [""] + rest else [[s[0]] + rest[0]] + rest[1..]
  }

  /** Trimmed pieces without the blank ones. */
  function Clean(pieces: seq<string>): seq<string> {
    if pieces == [] then []
    else (if Trim(pieces[0]) == "" then [] else [Trim(pieces[0])]) + Clean(pieces[1..])
  }

  function Parts(value: string): seq<string> {
    Clean(Split(value))
  }

  function AllParts(values: seq<string>): seq<string> {
    if values == [] then [] else Parts(values[0]) + AllParts(values[1..])
  }

  /** What a list of flag values stands for. */
  function Normalized(values: seq<string>): seq<string> {
    KeepFirst(AllParts(values), Itself, {})
  }

  method NormalizeFilterValues(values: seq<string>) returns (normalized: seq<string>)
    ensures normalized == Normalized(values)
  {
    var seen: set<string> := {};
    normalized := [];
    for i := 0 to |values|
      invariant normalized == KeepFirst(AllParts(values[..i]), Itself, {})
      invariant seen == Keys(AllParts(values[..i]), Itself)
    {
      var parts := Parts(values[i]);
      ghost var before := AllParts(values[..i]);
      AllPartsSnoc(values, i);
      for j := 0 to |parts|
        invariant normalized == KeepFirst(before + parts[..j], Itself, {})
        invariant seen == Keys(before + parts[..j], Itself)
      {
        NextPart(before, parts, j);
        if parts[j] !in seen {
          seen := seen + {parts[j]};
          normalized := normalized + [parts[j]];
        }
      }
      assert parts[..|parts|] == parts;
    }
    assert values[..|values|] == values;
  }

  lemma {:induction false} AllPartsAppend(a: seq<string>, b: seq<string>)
    ensures AllParts(a + b) == AllParts(a) + AllParts(b)
  {
    if a == [] {
      assert a + b == b;
    } else {
      assert (a + b)[1..] == a[1..] + b;
      AllPartsAppend(a[1..], b);
    }
  }

  lemma {:induction false} AllPartsSnoc(values: seq<string>, i: nat)
    requires i < |values|
    ensures AllParts(values[..i + 1]) == AllParts(values[..i]) + Parts(values[i])
    ensures forall s: seq<string> :: s + Parts(values[i])[..0] == s
  {
    assert values[..i + 1] == values[..i] + [values[i]];
    AllPartsAppend(values[..i], [values[i]]);
    assert [values[i]][1..] == [];
    assert AllParts([values[i]]) == Parts(values[i]);
  }

  lemma {:induction false} NextPart(before: seq<string>, parts: seq<string>, j: nat)
    requires j < |parts|
    ensures var known := Keys(before + parts[..j], Itself);
      && KeepFirst(before + parts[..j + 1], Itself, {})
           == KeepFirst(before + parts[..j], Itself, {}) + (if parts[j] in known then [] else [parts[j]])
      && Keys(before + parts[..j + 1], Itself) == known + {parts[j]}
  {
    var items := before + parts[..j];
    assert before + parts[..j + 1] == items + [parts[j]];
    KeepFirstAppend(items, [parts[j]], Itself, {});
    assert {} + Keys(items, Itself) == Keys(items, Itself);
    KeepFirstOne(parts[j], Itself, Keys(items, Itself));
    KeysAppend(items, [parts[j]], Itself);
    assert Keys([parts[j]], Itself) == {parts[j]} by { assert Itself([parts[j]][0]) == Some(parts[j]); }
  }

  // ---- commas and repetition mean the same -----------------------------------------

  lemma {:induction false} SplitCons(c: char, s: string)
    ensures Split([c] + s) == if c == ',' then [""] + Split(s) else [[c] + Split(s)[0]] + Split(s)[1..]
  {
    assert ([c] + s)[1..] == s;
  }

  lemma {:induction false} SplitAtComma(a: string, b: string)
    ensures Split(a + [','] + b) == Split(a) + Split(b)
  {
    if a == "" {
      assert a + [','] + b == [','] + b;
      SplitCons(',', b);
    } else {
      var rest := a[1..];
      assert a == [a[0]] + rest && a + [','] + b == [a[0]] + (rest + [','] + b);
      SplitAtComma(rest, b);
      SplitCons(a[0], rest);
      SplitCons(a[0], rest + [','] + b);
    }
  }

  lemma {:induction false} SplitAppend(a: string, b: string)
    ensures Split(a + "," + b) == Split(a) + Split(b)
  {
    SplitAtComma(a, b);
    assert "," == [','];
  }

  lemma {:induction false} CleanCons(piece: string, pieces: seq<string>)
    ensures Clean([piece] + pieces) == (if Trim(piece) == "" then [] else [Trim(piece)]) + Clean(pieces)
  {
    assert ([piece] + pieces)[1..] == pieces;
  }

  lemma {:induction false} CleanAppend(a: seq<string>, b: seq<string>)
    ensures Clean(a + b) == Clean(a) + Clean(b)
  {
    if a == [] {
      assert a + b == b;
    } else {
      assert a == [a[0]] + a[1..] && a + b == [a[0]] + (a[1..] + b);
      CleanAppend(a[1..], b);
      CleanCons(a[0], a[1..]);
      CleanCons(a[0], a[1..] + b);
    }
  }

  lemma {:induction false} PartsOfJoin(values: seq<string>)
    ensures Parts(Join(values, ",")) == AllParts(values)
  {
    if values == [] {
      assert [""][1..] == [];
    } else if |values| == 1 {
      assert values[1..] == [];
    } else {
      var rest := Join(values[1..], ",");
      SplitAppend(values[0], rest);
      CleanAppend(Split(values[0]), Split(rest));
      PartsOfJoin(values[1..]);
    }
  }

  /** Repeating a flag and joining its values with commas mean the same. */
  lemma {:induction false} CommaOrRepeat(values: seq<string>)
    ensures Normalized([Join(values, ",")]) == Normalized(values)
  {
    PartsOfJoin(values);
    var joined := Join(values, ",");
    assert [joined][1..] == [];
    assert AllParts([joined]) == Parts(joined);
  }

  // ---- the shape of the result --------------------------------------------------------

  /** A value that normalisation leaves as it is. */
  predicate IsClean(p: string) {
    p != "" && !IsWhitespace(p[0]) && !IsWhitespace(p[|p| - 1]) && ',' !in p
  }

  lemma {:induction false} TrimShape(s: string)
    requires ',' !in s && Trim(s) != ""
    ensures IsClean(Trim(s))
  {
    TrimStartShape(s);
    TrimEndShape(TrimStart(s));
    assert forall c :: c in Trim(s) ==> c in TrimStart(s);
  }

  lemma {:induction false} SplitNoCommas(s: string)
    ensures forall p :: p in Split(s) ==> ',' !in p
  {
    if s != "" { SplitNoCommas(s[1..]); }
  }

  lemma {:induction false} CleanShape(pieces: seq<string>)
    requires forall p :: p in pieces ==> ',' !in p
    ensures forall p :: p in Clean(pieces) ==> IsClean(p)
  {
    if pieces != [] {
      CleanShape(pieces[1..]);
      if Trim(pieces[0]) != "" { TrimShape(pieces[0]); }
    }
  }

  lemma {:induction false} AllPartsShape(values: seq<string>)
    ensures forall p :: p in AllParts(values) ==> IsClean(p)
  {
    if values != [] {
      SplitNoCommas(values[0]);
      CleanShape(Split(values[0]));
      AllPartsShape(values[1..]);
    }
  }

  /** No blanks, no surrounding whitespace, no commas and no duplicates; and the
      values are the parts of the input at their first places. */
  lemma {:induction false} NormalizedShape(values: seq<string>) returns (at: seq<nat>)
    ensures var r := Normalized(values);
      && (forall p :: p in r ==> IsClean(p))
      && Distinct(r)
      && SelectsFirsts(AllParts(values), Itself, at) && PickedAt(r, AllParts(values), at)
  {
    var r := Normalized(values);
    AllPartsShape(values);
    at := KeepFirstSelects(AllParts(values), Itself);
    forall p | p in r ensures IsClean(p) {
      var a :| 0 <= a < |r| && r[a] == p;
      assert AllParts(values)[at[a]] in AllParts(values);
    }
    KeepFirstKeys(AllParts(values), Itself, {});
    forall i, j | 0 <= i < j < |r| ensures r[i] != r[j] {
      assert Itself(r[i]) != Itself(r[j]);
    }
  }

  lemma {:induction false} SplitWhole(p: string)
    requires ',' !in p
    ensures Split(p) == [p]
  {
    if p != "" {
      assert p == [p[0]] + p[1..] && p[0] in p;
      SplitWhole(p[1..]);
    }
  }

  lemma {:induction false} CleanParts(values: seq<string>)
    requires forall p :: p in values ==> IsClean(p)
    ensures AllParts(values) == values
  {
    if values != [] {
      assert values[0] in values;
      SplitWhole(values[0]);
      assert Trim(values[0]) == values[0];
      assert [values[0]][1..] == [];
      CleanParts(values[1..]);
      assert Clean([values[0]]) == [values[0]];
      assert values == [values[0]] + values[1..];
    }
  }

  /** Normalising a second time changes nothing. */
  lemma {:induction false} NormalizedTwice(values: seq<string>)
    ensures Normalized(Normalized(values)) == Normalized(values)
  {
    var at := NormalizedShape(values);
    var r := Normalized(values);
    CleanParts(r);
    KeepFirstDistinct(r, Itself, {});
  }

  // ---- the values themselves -----------------------------------------------------------

  /** A value between commas, or an end of the text, and surrounded by whitespace only. */
  ghost predicate WrittenAs(value: string, before: string, left: string, p: string, right: string, after: string) {
    && value == before + (left + p + right) + after
    && (before == "" || before[|before| - 1] == ',') && (after == "" || after[0] == ',')
    && Blank(left) && Blank(right)
  }

  ghost predicate WrittenIn(value: string, p: string) {
    exists before, left, right, after :: WrittenAs(value, before, left, p, right, after)
  }

  /** A piece lies between commas or ends of the text. */
  lemma {:induction false} PieceAt(s: string, k: nat) returns (before: string, after: string)
    requires k < |Split(s)|
    ensures s == before + Split(s)[k] + after
    ensures (before == "" || before[|before| - 1] == ',') && (after == "" || after[0] == ',')
    ensures before == "" <==> k == 0
  {
    if s == "" {
      before, after := "", "";
    } else if s[0] == ',' {
      if k == 0 {
        before, after := "", s;
      } else {
        var inner;
        inner, after := PieceAt(s[1..], k - 1);
        before := [','] + inner;
        assert s == [','] + s[1..];
      }
    } else {
      var inner;
      inner, after := PieceAt(s[1..], k);
      assert s == [s[0]] + s[1..];
      before := if k == 0 then "" else [s[0]] + inner;
      assert k > 0 ==> Split(s)[k] == Split(s[1..])[k];
    }
  }

  /** ... and everything that lies so and has no comma is a piece. */
  lemma {:induction false} PieceThere(before: string, q: string, after: string)
    requires ',' !in q
    requires (before == "" || before[|before| - 1] == ',') && (after == "" || after[0] == ',')
    ensures q in Split(before + q + after)
  {
    PieceFirst(q, after);
    if before == "" {
      assert before + q + after == q + after;
    } else {
      var front := before[..|before| - 1];
      assert before == front + [','];
      assert before + q + after == front + [','] + (q + after);
      SplitAtComma(front, q + after);
    }
  }

  lemma {:induction false} PieceFirst(q: string, after: string)
    requires ',' !in q && (after == "" || after[0] == ',')
    ensures q in Split(q + after)
  {
    SplitWhole(q);
    if after == "" {
      assert q + after == q;
    } else {
      assert q + after == q + [','] + after[1..];
      SplitAtComma(q, after[1..]);
    }
  }

  lemma {:induction false} CleanAre(pieces: seq<string>, p: string)
    ensures p in Clean(pieces) <==> p != "" && exists q :: q in pieces && Trim(q) == p
  {
    if pieces != [] {
      CleanAre(pieces[1..], p);
      assert pieces == [pieces[0]] + pieces[1..];
    }
  }

  lemma {:induction false} PartsAre(value: string, p: string)
    requires IsClean(p)
    ensures p in Parts(value) <==> WrittenIn(value, p)
  {
    CleanAre(Split(value), p);
    if p in Parts(value) {
      var q :| q in Split(value) && Trim(q) == p;
      var k :| 0 <= k < |Split(value)| && Split(value)[k] == q;
      var before, after := PieceAt(value, k);
      var left, right := TrimTakes(q);
      assert WrittenAs(value, before, left, p, right, after);
    }
    if before, left, right, after :| WrittenAs(value, before, left, p, right, after) {
      var q := left + p + right;
      assert ',' !in q;
      PieceThere(before, q, after);
      TrimGives(left, p, right);
    }
  }

  lemma {:induction false} AllPartsAre(values: seq<string>, p: string)
    ensures p in AllParts(values) <==> exists value :: value in values && p in Parts(value)
  {
    if values != [] {
      AllPartsAre(values[1..], p);
      assert values == [values[0]] + values[1..];
    }
  }

  /** Exactly the values that are written in some flag. */
  lemma {:induction false} NormalizedAre(values: seq<string>, p: string)
    ensures p in Normalized(values) <==> IsClean(p) && exists value :: value in values && WrittenIn(value, p)
  {
    AllPartsAre(values, p);
    AllPartsShape(values);
    InKeys(AllParts(values), p);
    InKeys(Normalized(values), p);
    KeepFirstKeys(AllParts(values), Itself<string>, {});
    if IsClean(p) {
      forall value ensures p in Parts(value) <==> WrittenIn(value, p) {
        PartsAre(value, p);
      }
    }
  }

  lemma {:induction false} InKeys(parts: seq<string>, p: string)
    ensures p in Keys(parts, Itself) <==> p in parts
  {
    if p in parts {
      var i :| 0 <= i < |parts| && parts[i] == p;
      assert Itself(parts[i]) == Some(p);
    }
  }

  /** Values that need no cleaning stay as they are, in their order, whether they
      are given one by one or joined with commas. */
  lemma {:induction false} OrderKept(values: seq<string>)
    requires Distinct(values) && forall p :: p in values ==> IsClean(p)
    ensures Normalized(values) == values == Normalized([Join(values, ",")])
  {
    CleanParts(values);
    KeepFirstDistinct(values, Itself<string>, {});
    CommaOrRepeat(values);
  }
}
