/** The scopes that a sign-in asks for. */
module Scopes {
  import opened Wrappers
  import opened Sequences
  import opened Text

  const DEFAULT_SCOPE: string := "read"

  predicate IsScopeChar(c: char) {
    'a' <= c <= 'z' || 'A' <= c <= 'Z' || '0' <= c <= '9' || c == ':' || c == '_' || c == '-' || c == '.'
  }

  predicate IsValidScope(s: string) {
    forall c :: c in s ==> IsScopeChar(c)
  }

  /** The scope a given text stands for, if it stands for one. */
  function Canonical(given: string): Option<string> {
    var scope := AsciiLower(Trim(given));
    if scope == "" || !IsValidScope(scope) then None else Some(scope)
  }

  function Canonicals(given: seq<string>): seq<string> {
    if given == [] then []
    else
      var n := |given| - 1;
      Canonicals(given[..n]) + match Canonical(given[n]) case None => [] case Some(scope) => [scope]
  }

  /** What a list of given scopes stands for. */
  function Normalized(given: seq<string>): seq<string> {
    var scopes := KeepFirst(Canonicals(given), Itself, {});
    if scopes == [] then [DEFAULT_SCOPE] else scopes
  }

  method NormalizeScopes(given: seq<string>) returns (normalized: seq<string>)
    ensures normalized == Normalized(given)
  {
    var seen: set<string> := {};
    normalized := [];
    for i := 0 to |given|
      invariant normalized == KeepFirst(Canonicals(given[..i]), Itself, {})
      invariant seen == Keys(Canonicals(given[..i]), Itself)
    {
      var scope := AsciiLower(Trim(given[i]));
      NextScope(given, i);
      if scope == "" || !IsValidScope(scope) {
        continue;
      }
      if scope !in seen {
        seen := seen + {scope};
        normalized := normalized + [scope];
      }
    }
    assert given[..|given|] == given;
    if normalized == [] {
      normalized := [DEFAULT_SCOPE];
    }
  }

  lemma {:induction false} NextScope(given: seq<string>, i: nat)
    requires i < |given|
    ensures var before, after := Canonicals(given[..i]), Canonicals(given[..i + 1]);
      var known := Keys(before, Itself);
      match Canonical(given[i])
      case None => after == before
      case Some(scope) =>
        && KeepFirst(after, Itself, {}) == KeepFirst(before, Itself, {}) + (if scope in known then [] else [scope])
        && Keys(after, Itself) == known + {scope}
  {
    assert given[..i + 1][..i] == given[..i];
    var before := Canonicals(given[..i]);
    match Canonical(given[i])
    case None =>
    case Some(scope) =>
      KeepFirstAppend(before, [scope], Itself, {});
      assert {} + Keys(before, Itself) == Keys(before, Itself);
      KeepFirstOne(scope, Itself, Keys(before, Itself));
      KeysAppend(before, [scope], Itself);
      assert Keys([scope], Itself) == {scope} by { assert Itself([scope][0]) == Some(scope); }
  }

  lemma {:induction false} ScopeChars(s: string)
    requires IsValidScope(s) && s != ""
    ensures Trim(s) == s
  {
    assert s[0] in s && s[|s| - 1] in s;
  }

  /** A scope stands for itself. */
  lemma {:induction false} CanonicalTwice(given: string)
    requires Canonical(given).Some?
    ensures Canonical(Canonical(given).value) == Canonical(given)
  {
    var scope := Canonical(given).value;
    ScopeChars(scope);
    assert AsciiLower(scope) == scope;
  }

  ghost predicate AllCanonical(scopes: seq<string>) {
    forall s :: s in scopes ==> Canonical(s) == Some(s)
  }

  lemma {:induction false} CanonicalsShape(given: seq<string>)
    ensures AllCanonical(Canonicals(given))
    ensures forall s :: s in Canonicals(given) <==> exists g :: g in given && Canonical(g) == Some(s)
  {
    if given != [] {
      var n := |given| - 1;
      CanonicalsShape(given[..n]);
      assert given == given[..n] + [given[n]];
      if Canonical(given[n]).Some? { CanonicalTwice(given[n]); }
    }
  }

  /** At least one scope, each in its canonical form and once; exactly those that
      were given, and the default one only if none was. */
  lemma {:induction false} NormalizedShape(given: seq<string>)
    ensures var r := Normalized(given);
      && r != [] && Distinct(r) && AllCanonical(r)
      && (forall s :: s in r <==> if Canonicals(given) == [] then s == "read"
                                  else exists g :: g in given && Canonical(g) == Some(s))
  {
    var all := Canonicals(given);
    var kept := KeepFirst(all, Itself, {});
    CanonicalsShape(given);
    KeepFirstKeys(all, Itself, {});
    SameElements(kept, all);
    forall i, j | 0 <= i < j < |kept| ensures kept[i] != kept[j] {
      assert Itself(kept[i]) != Itself(kept[j]);
    }
    DefaultCanonical();
    if all != [] { assert all[0] in kept; }
  }

  lemma {:induction false} DefaultCanonical()
    ensures Canonical(DEFAULT_SCOPE) == Some(DEFAULT_SCOPE)
  {
    ScopeChars("read");
    assert AsciiLower("read") == "read";
  }

  lemma {:induction false} SameElements(kept: seq<string>, all: seq<string>)
    requires Keys(kept, Itself) == Keys(all, Itself)
    ensures forall s :: s in kept <==> s in all
  {
    KeysAre(kept);
    KeysAre(all);
  }

  lemma {:induction false} KeysAre(scopes: seq<string>)
    ensures forall s :: s in Keys(scopes, Itself) <==> s in scopes
  {
    forall s | s in scopes ensures s in Keys(scopes, Itself) {
      var i :| 0 <= i < |scopes| && scopes[i] == s;
      assert Itself(scopes[i]) == Some(s);
    }
  }

  lemma {:induction false} CanonicalsSame(scopes: seq<string>)
    requires AllCanonical(scopes)
    ensures Canonicals(scopes) == scopes
  {
    if scopes != [] {
      var n := |scopes| - 1;
      assert scopes == scopes[..n] + [scopes[n]] && scopes[n] in scopes;
      CanonicalsSame(scopes[..n]);
    }
  }

  /** Normalising a second time changes nothing. */
  lemma {:induction false} NormalizedTwice(given: seq<string>)
    ensures Normalized(Normalized(given)) == Normalized(given)
  {
    var r := Normalized(given);
    NormalizedShape(given);
    CanonicalsSame(r);
    KeepFirstDistinct(r, Itself, {});
  }

  /** A scope that is in its canonical form. */
  predicate Plain(s: string) {
    s != "" && forall c :: c in s ==> 'a' <= c <= 'z' || '0' <= c <= '9' || c == ':' || c == '_' || c == '-' || c == '.'
  }

  ghost predicate StandsFor(given: string, s: string) {
    exists before, written, after :: given == before + written + after && Blank(before) && Blank(after) && AsciiLower(written) == s
  }

  lemma {:induction false} CanonicalPlain(given: string)
    requires Canonical(given).Some?
    ensures Plain(Canonical(given).value)
  {
    var s, written := Canonical(given).value, Trim(given);
    forall i | 0 <= i < |s| ensures !('A' <= s[i] <= 'Z') {
      assert s[i] == LowerChar(written[i]);
    }
    assert forall c :: c in s ==> IsScopeChar(c) && !('A' <= c <= 'Z');
  }

  lemma {:induction false} CanonicalFrom(before: string, written: string, after: string)
    requires Blank(before) && Blank(after) && Plain(AsciiLower(written))
    ensures Canonical(before + written + after) == Some(AsciiLower(written))
  {
    var s := AsciiLower(written);
    assert s[0] in s && s[|s| - 1] in s;
    TrimGives(before, written, after);
  }

  /** What a given text stands for: a plain scope, in any case, with nothing but
      whitespace around it. */
  lemma {:induction false} CanonicalIs(given: string, s: string)
    ensures Canonical(given) == Some(s) <==> Plain(s) && StandsFor(given, s)
  {
    if Canonical(given) == Some(s) {
      CanonicalPlain(given);
      var before, after := TrimTakes(given);
    }
    if Plain(s) && StandsFor(given, s) {
      var before, written, after :| given == before + written + after && Blank(before) && Blank(after) && AsciiLower(written) == s;
      CanonicalFrom(before, written, after);
    }
  }
}
