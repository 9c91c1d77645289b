/**
 * The sign-expression rewriting of the car application's darc helpers
 * (car/darcstructure.go). A reader or garage darc is signed by
 * `(member1 | member2 | ...) & darc:owner`: any one member together with the
 * car owner's darc. Adding or removing a member rewrites that expression as a
 * string; nothing here parses or evaluates expressions.
 */
module DarcExpr {
  import opened Wrappers
  import opened GoStrings

  // ---------------------------------------------------------------------
  // removeSpace
  // ---------------------------------------------------------------------

  /** `r` is `s` with one optional leading and one optional trailing space cut. */
  predicate TrimmedAt(s: string, r: string, i: int) {
    && 0 <= i <= 1
    && i + |r| <= |s| <= i + |r| + 1
    && s[i..i + |r|] == r
    && (i == 1 ==> s[0] == ' ')
    && (i + |r| < |s| ==> s[|s| - 1] == ' ')
  }

  /** `removeSpace`: at most one space off each end, nothing else touched. */
  function RemoveSpace(s: string): (r: string)
    ensures exists i :: TrimmedAt(s, r, i)
    ensures (|s| == 0 || (s[0] != ' ' && s[|s| - 1] != ' ')) ==> r == s
  {
    var t := if HasSuffix(s, " ") then TrimSuffix(s, " ") else s;
    var r := if HasPrefix(t, " ") then TrimPrefix(t, " ") else t;
    assert TrimmedAt(s, r, if HasPrefix(t, " ") then 1 else 0);
    r
  }

  /** Spaces are all `removeSpace` removes, so a word in `s` survives it. */
  lemma RemoveSpaceKeeps(s: string, word: string)
    requires Contains(s, word)
    requires |word| > 0 && word[0] != ' ' && word[|word| - 1] != ' '
    ensures Contains(RemoveSpace(s), word)
  {
    var r := RemoveSpace(s);
    var i :| TrimmedAt(s, r, i);
    ContainsIff(s, word);
    var k :| OccursAt(s, word, k);
    WordInside(s, r, i, word, k);
    assert OccursAt(r, word, k - i);
    ContainsIff(r, word);
  }

  /** A word without edge spaces lies inside the trimmed part. */
  lemma WordInside(s: string, r: string, i: int, word: string, k: int)
    requires TrimmedAt(s, r, i) && OccursAt(s, word, k)
    requires |word| > 0 && word[0] != ' ' && word[|word| - 1] != ' '
    ensures i <= k && k + |word| <= i + |r|
    ensures r[k - i..k - i + |word|] == word
  {
    assert s[k] == word[0] by {
      assert s[k..k + |word|][0] == s[k];
    }
    assert s[k + |word| - 1] == word[|word| - 1] by {
      assert s[k..k + |word|][|word| - 1] == s[k + |word| - 1];
    }
    assert r[k - i..k - i + |word|] == s[k..k + |word|];
  }

  /** A string padded by one space on each side loses exactly that padding. */
  lemma RemoveSpacePadded(s: string)
    ensures RemoveSpace(" " + s + " ") == s
  {
    var p := " " + s + " ";
    assert HasSuffix(p, " ");
    assert TrimSuffix(p, " ") == " " + s;
    assert HasPrefix(" " + s, " ");
  }

  // ---------------------------------------------------------------------
  // Shared steps of adding and removing a member
  // ---------------------------------------------------------------------

  /** The two sides of the first `&`: the owner's darc and the members. */
  datatype Sides = Sides(darcPart: string, otherPart: string)

  const Darc: string := "darc"

  /**
   * Which side of the split holds the owner's darc: the second piece when it
   * mentions "darc", else the first, else neither (both parts empty).
   */
  function PickSides(pieces: seq<string>): (r: Sides)
    requires |pieces| >= 2
    ensures r.darcPart == "" <==> !Contains(pieces[0], Darc) && !Contains(pieces[1], Darc)
    ensures r.darcPart != "" ==> Contains(r.darcPart, Darc)
    ensures Contains(pieces[1], Darc) ==> r.otherPart == RemoveSpace(pieces[0])
    ensures !Contains(pieces[1], Darc) && Contains(pieces[0], Darc) ==>
      r.otherPart == RemoveSpace(pieces[1])
  {
    if Contains(pieces[1], Darc) then
      RemoveSpaceKeeps(pieces[1], Darc);
      ContainsIff(RemoveSpace(pieces[1]), Darc);
      Sides(RemoveSpace(pieces[1]), RemoveSpace(pieces[0]))
    else if Contains(pieces[0], Darc) then
      RemoveSpaceKeeps(pieces[0], Darc);
      ContainsIff(RemoveSpace(pieces[0]), Darc);
      Sides(RemoveSpace(pieces[0]), RemoveSpace(pieces[1]))
    else
      Sides("", "")
  }

  /**
   * The member side after adding `id`: inside an existing parenthesis the
   * member is appended before the first `)` (anything after it is dropped);
   * a side without parenthesis becomes `(side | id)`.
   */
  function WidenGroup(other: string, id: string): (r: string)
    ensures HasSuffix(r, " | " + id + ")")
    ensures !Contains(other, "(") ==> r == "(" + other + " | " + id + ")"
  {
    var grown := if Contains(other, "(") then RemoveSpace(Split(other, ')')[0]) + " | " + id + ")"
                 else other;
    if Contains(grown, "(") then grown
    else
      "(" + grown + " | " + id + ")"
  }

  // ---------------------------------------------------------------------
  // addSignerToExpr
  // ---------------------------------------------------------------------

  const Invalid: string := "invalid expression"

  /** `a & b`, the way both rewritings put an expression back together. */
  function Conj(a: string, b: string): string {
    a + " & " + b
  }

  /** A word in either operand is a word of the conjunction. */
  lemma ConjContains(a: string, b: string, word: string)
    ensures Contains(a, word) || Contains(b, word) ==> Contains(Conj(a, b), word)
  {
    if Contains(a, word) {
      ContainsInfix("", a, " & " + b, word);
      assert "" + a + (" & " + b) == Conj(a, b);
    } else if Contains(b, word) {
      ContainsInfix(a + " & ", b, "", word);
      assert a + " & " + b + "" == Conj(a, b);
    }
  }

  /** `addSignerToExpr`: the sign expression with `id` added as a member. */
  function AddSignerToExpr(expr: string, id: string): (r: Result<string>)
    ensures '&' !in expr ==> r == Ok(Conj(expr, id))
    ensures '&' in expr ==>
      (r.Err? <==> !Contains(Split(expr, '&')[0], Darc) && !Contains(Split(expr, '&')[1], Darc))
    ensures r.Err? ==> r.msg == Invalid
    ensures r.Ok? ==> Contains(r.value, id)
    ensures r.Ok? && Contains(expr, Darc) ==> Contains(r.value, Darc)
  {
    ContainsChar(expr, '&');
    if !Contains(expr, "&") then
      ContainsIff(id, id);
      assert OccursAt(id, id, 0);
      ConjContains(expr, id, id);
      ConjContains(expr, id, Darc);
      Ok(Conj(expr, id))
    else
      AddToSides(PickSides(Split(expr, '&')), id)
  }

  /**
   * The part of `addSignerToExpr` after the split: widen the member side and
   * put the owner's darc after it; no darc side means an invalid expression.
   */
  function AddToSides(sides: Sides, id: string): (r: Result<string>)
    requires sides.darcPart != "" ==> Contains(sides.darcPart, Darc)
    ensures r.Err? <==> sides.darcPart == ""
    ensures r.Err? ==> r.msg == Invalid
    ensures r.Ok? ==> Contains(r.value, id) && Contains(r.value, Darc)
  {
    var other := WidenGroup(sides.otherPart, id);
    if sides.darcPart == "" || other == "" then Err(Invalid)
    else
      AddedFacts(other, sides.darcPart, id);
      Ok(Conj(RemoveSpace(other), RemoveSpace(sides.darcPart)))
  }

  /** An expression with an `&` is rewritten side by side. */
  lemma AddBySides(expr: string, id: string)
    requires '&' in expr
    ensures AddSignerToExpr(expr, id) == AddToSides(PickSides(Split(expr, '&')), id)
  {
    ContainsChar(expr, '&');
  }

  lemma AddedFacts(group: string, darcPart: string, id: string)
    requires HasSuffix(group, " | " + id + ")")
    requires Contains(darcPart, Darc)
    ensures Contains(Conj(RemoveSpace(group), RemoveSpace(darcPart)), id)
    ensures Contains(Conj(RemoveSpace(group), RemoveSpace(darcPart)), Darc)
  {
    AddedMemberStays(group, id);
    RemoveSpaceKeeps(darcPart, Darc);
    ConjContains(RemoveSpace(group), RemoveSpace(darcPart), id);
    ConjContains(RemoveSpace(group), RemoveSpace(darcPart), Darc);
  }

  /** The member a widened group ends with survives `removeSpace`. */
  lemma AddedMemberStays(group: string, id: string)
    requires HasSuffix(group, " | " + id + ")")
    ensures Contains(RemoveSpace(group), id)
  {
    var k := |group| - |id| - 1;
    MemberBeforeClose(group, id);
    var r := RemoveSpace(group);
    var i :| TrimmedAt(group, r, i);
    TrimKeepsTail(group, r, i, id, k);
    ContainsIff(r, id);
  }

  /** A group ending in `" | id)"` holds `id` just before its last character. */
  lemma MemberBeforeClose(group: string, id: string)
    requires HasSuffix(group, " | " + id + ")")
    ensures |group| >= |id| + 4 && group[|group| - 1] == ')'
    ensures group[|group| - |id| - 1..|group| - 1] == id
  {
    var n := |group|;
    var tail := " | " + id + ")";
    assert group[n - |tail|..] == tail;
    assert group[n - 1] == tail[|tail| - 1];
    assert group[n - |id| - 1..n - 1] == group[n - |tail|..][3..3 + |id|];
    assert tail[3..3 + |id|] == id;
  }

  /** Trimming never reaches a word that sits before a final non-space. */
  lemma TrimKeepsTail(s: string, r: string, i: int, id: string, k: int)
    requires TrimmedAt(s, r, i)
    requires |s| >= 1 && s[|s| - 1] != ' '
    requires 1 <= k && k + |id| <= |s| && s[k..k + |id|] == id
    ensures OccursAt(r, id, k - i)
  {
    assert i + |r| == |s|;
    assert r[k - i..k - i + |id|] == s[i..i + |r|][k - i..k - i + |id|];
  }

  // ---------------------------------------------------------------------
  // removeSignerFromExpr
  // ---------------------------------------------------------------------

  const IndexPanic: string := "runtime error: index out of range [1] with length 1"

  /** The darc side or the member side of the split came out empty. */
  predicate BadSides(pieces: seq<string>)
    requires |pieces| >= 2
  {
    PickSides(pieces).darcPart == "" || PickSides(pieces).otherPart == ""
  }

  /** Drops the group's parentheses once no `|` is left in it. */
  function Unwrap(group: string): string {
    if Contains(group, "|") then group else TrimChar(TrimChar(group, '('), ')')
  }

  /**
   * `removeSignerFromExpr`: the sign expression without the member `id`.
   * An expression that mentions `id` but holds no `&` makes Go index past
   * the end of the split.
   */
  function RemoveSignerFromExpr(expr: string, id: string): (r: Result<string>)
    ensures !Contains(expr, id) ==> r == Ok(expr)
    ensures Contains(expr, id) && '&' !in expr ==> r == Err(IndexPanic)
    ensures Contains(expr, id) && '&' in expr ==>
      |Split(expr, '&')| >= 2 && (r.Err? <==> BadSides(Split(expr, '&')))
    ensures r.Err? ==> r.msg in {Invalid, IndexPanic}
    ensures r.Ok? && Contains(expr, Darc) ==> Contains(r.value, Darc)
  {
    ContainsChar(expr, '&');
    if !Contains(expr, id) then Ok(expr)
    else if !Contains(expr, "&") then Err(IndexPanic)
    else RemoveFromSides(PickSides(Split(expr, '&')), id)
  }

  /**
   * The part of `removeSignerFromExpr` after the split: cut `id` out of the
   * member group (with the bar before it, else the bar after it), drop the
   * parentheses of a group left with one member, and put the owner's darc
   * after it. A member side without parenthesis is dropped entirely.
   */
  function RemoveFromSides(sides: Sides, id: string): (r: Result<string>)
    requires sides.darcPart != "" ==> Contains(sides.darcPart, Darc)
    ensures r.Err? <==> sides.darcPart == "" || sides.otherPart == ""
    ensures r.Err? ==> r.msg == Invalid
    ensures r.Ok? ==> Contains(r.value, Darc)
    ensures r.Ok? && !Contains(sides.otherPart, "(") ==> r.value == RemoveSpace(sides.darcPart)
  {
    var dPart := sides.darcPart;
    var otherPart := sides.otherPart;
    if dPart == "" || otherPart == "" then Err(Invalid)
    else
      RemoveSpaceKeeps(dPart, Darc);
      var owner := RemoveSpace(dPart);
      if !Contains(otherPart, "(") then Ok(owner)
      else
        var before := " | " + id;
        var after := id + " | ";
        var rest :=
          if Contains(otherPart, before) then Unwrap(ReplaceAll(otherPart, before, ""))
          else if Contains(otherPart, after) then Unwrap(ReplaceAll(otherPart, after, ""))
          else otherPart;
        ConjContains(RemoveSpace(rest), owner, Darc);
        Ok(Conj(RemoveSpace(rest), owner))
  }

  /** An expression with `id` and an `&` is rewritten side by side. */
  lemma RemoveBySides(expr: string, id: string)
    requires Contains(expr, id) && '&' in expr
    ensures RemoveSignerFromExpr(expr, id) == RemoveFromSides(PickSides(Split(expr, '&')), id)
  {
    ContainsChar(expr, '&');
  }

  // ---------------------------------------------------------------------
  // The expressions the rewritings are meant for
  // ---------------------------------------------------------------------

  /** Characters that never occur inside one identity. */
  predicate Plain(s: string) {
    forall i :: 0 <= i < |s| ==> s[i] != ' ' && s[i] != '&' && s[i] != '(' && s[i] != ')' && s[i] != '|'
  }

  /** A member's identity string, such as `ed25519:...`. */
  predicate Member(a: string) {
    |a| > 0 && Plain(a) && !Contains(a, Darc)
  }

  /** The owner's darc identity, such as `darc:...`. */
  predicate Owner(d: string) {
    |d| > 0 && Plain(d) && Contains(d, Darc)
  }

  /** The members written between the parentheses of a group. */
  predicate GroupBody(m: string) {
    && (forall i :: 0 <= i < |m| ==> m[i] != '&' && m[i] != '(' && m[i] != ')')
    && (|m| == 0 || m[|m| - 1] != ' ')
  }

  /** `(m)`. */
  function Group(m: string): string {
    "(" + m + ")"
  }

  /** `a | b`. */
  function Or(a: string, b: string): string {
    a + " | " + b
  }

  /** An owner-and-member expression splits into the owner and the member. */
  lemma SidesOfPair(d: string, a: string)
    requires Owner(d) && Member(a)
    ensures '&' in Conj(d, a)
    ensures PickSides(Split(Conj(d, a), '&')) == Sides(d, a)
  {
    PaddedPlain(d);
    PaddedPlain(a);
    ConjSplit(d, a);
    PadContains(a, Darc);
    PadContains(d, Darc);
  }

  /** A group followed by the owner splits into the owner and the group. */
  lemma SidesOfGroup(m: string, d: string)
    requires GroupBody(m) && Owner(d)
    ensures '&' in Conj(Group(m), d)
    ensures PickSides(Split(Conj(Group(m), d), '&')) == Sides(d, Group(m))
  {
    PaddedPlain(d);
    var g := Group(m);
    GroupWithoutAnd(m);
    ConjSplit(g, d);
    PadContains(d, Darc);
    GroupPadded(m);
  }

  /** A group body holds no `&`, and neither do its parentheses. */
  lemma GroupWithoutAnd(m: string)
    requires GroupBody(m)
    ensures '&' !in Group(m)
  {
    var g := Group(m);
    forall i | 0 <= i < |g| ensures g[i] != '&' {
      if 0 < i < |g| - 1 { assert g[i] == m[i - 1]; }
    }
  }

  /** A group followed by one space loses just that space. */
  lemma GroupPadded(m: string)
    ensures RemoveSpace(Group(m) + " ") == Group(m)
  {
    var g := Group(m);
    assert HasSuffix(g + " ", " ");
    assert TrimSuffix(g + " ", " ") == g;
  }

  /** A parenthesised string is left alone by `removeSpace`. */
  lemma GroupUnspaced(m: string)
    ensures RemoveSpace(Group(m)) == Group(m)
  {
  }

  /** A single member becomes a group of two. */
  lemma WidenMember(a: string, b: string)
    requires Member(a)
    ensures WidenGroup(a, b) == Group(Or(a, b))
  {
    ContainsChar(a, '(');
    assert '(' !in a by {
      forall i | 0 <= i < |a| ensures a[i] != '(' { }
    }
  }

  /** The first piece of a group split at `)` is the group without it. */
  lemma SplitGroup(m: string)
    requires GroupBody(m)
    ensures Split(Group(m), ')')[0] == "(" + m
  {
    var x := "(" + m;
    assert ')' !in x by {
      forall i | 0 <= i < |x| ensures x[i] != ')' {
        if i > 0 { assert x[i] == m[i - 1]; }
      }
    }
    SplitTwo(x, "", ')');
    assert x + [')'] + "" == Group(m);
  }

  lemma OpenUnspaced(m: string)
    requires GroupBody(m)
    ensures RemoveSpace("(" + m) == "(" + m
  {
    var x := "(" + m;
    assert x[0] == '(';
    if |m| > 0 {
      assert x[|x| - 1] == m[|m| - 1];
    }
  }

  lemma GroupOpens(m: string)
    ensures Contains(Group(m), "(")
  {
    ContainsChar(Group(m), '(');
    assert Group(m)[0] == '(';
  }

  /** A group gains a member before its closing parenthesis. */
  lemma WidenGroupBody(m: string, id: string)
    requires GroupBody(m)
    ensures WidenGroup(Group(m), id) == Group(Or(m, id))
  {
    GroupOpens(m);
    SplitGroup(m);
    OpenUnspaced(m);
    var grown := Or("(" + m, id) + ")";
    assert grown == Group(Or(m, id));
    GroupOpens(Or(m, id));
  }

  /** Adding to an owner-and-member expression opens a group of two. */
  lemma AddSecondMember(d: string, a: string, b: string)
    requires Owner(d) && Member(a)
    ensures AddSignerToExpr(Conj(d, a), b) == Ok(Conj(Group(Or(a, b)), d))
  {
    SidesOfPair(d, a);
    AddBySides(Conj(d, a), b);
    WidenMember(a, b);
    GroupUnspaced(Or(a, b));
    PaddedPlain(d);
  }

  /** Adding to a group appends the new member inside the parentheses. */
  lemma AddToGroup(m: string, d: string, id: string)
    requires GroupBody(m) && Owner(d)
    ensures AddSignerToExpr(Conj(Group(m), d), id) == Ok(Conj(Group(Or(m, id)), d))
  {
    SidesOfGroup(m, d);
    AddBySides(Conj(Group(m), d), id);
    WidenGroupBody(m, id);
    GroupUnspaced(Or(m, id));
    PaddedPlain(d);
  }

  /** Removing the one member of an owner-and-member expression leaves the owner. */
  lemma RemoveOnlyMember(d: string, a: string)
    requires Owner(d) && Member(a)
    ensures RemoveSignerFromExpr(Conj(d, a), a) == Ok(d)
  {
    SelfContains(a);
    ConjContains(d, a, a);
    SidesOfPair(d, a);
    RemoveBySides(Conj(d, a), a);
    PaddedPlain(d);
    ContainsChar(a, '(');
    assert '(' !in a by {
      forall i | 0 <= i < |a| ensures a[i] != '(' { }
    }
  }

  /** Removing `| b` from the group `(a | b)` leaves the bare member `a`. */
  lemma DropLastMember(a: string, b: string)
    requires Member(a) && Member(b)
    ensures Contains(Group(Or(a, b)), " | " + b)
    ensures Unwrap(ReplaceAll(Group(Or(a, b)), " | " + b, "")) == a
  {
    var g := Group(Or(a, b));
    var pat := " | " + b;
    var x := "(" + a;
    assert g == x + pat + ")";
    SelfContains(pat);
    ContainsInfix(x, pat, ")", pat);
    forall i | 0 <= i < |x|
      ensures !OccursAt(x + pat + ")", pat, i)
    {
      var s := x + pat + ")";
      assert s[i + 1] != pat[1] by {
        if i + 1 < |x| {
          assert s[i + 1] == a[i];
        } else {
          assert s[i + 1] == pat[0];
        }
      }
    }
    ContainsIff(")", pat);
    ReplaceOnce(x, pat, ")", "");
    assert x + "" + ")" == Group(a);
    UnwrapGroup(a);
  }

  /** Removing the member added last to a group of two gives back a plain pair. */
  lemma RemoveLastAdded(a: string, b: string, d: string)
    requires Member(a) && Member(b) && Owner(d)
    ensures RemoveSignerFromExpr(Conj(Group(Or(a, b)), d), b) == Ok(Conj(a, d))
  {
    var g := Group(Or(a, b));
    var expr := Conj(g, d);
    assert Contains(expr, b) by {
      SelfContains(b);
      assert g == "(" + a + " | " + b + ")";
      ContainsInfix("(" + a + " | ", b, ")", b);
      ConjContains(g, d, b);
    }
    assert GroupBody(Or(a, b));
    SidesOfGroup(Or(a, b), d);
    RemoveBySides(expr, b);
    RemoveFromPair(a, b, d);
  }

  /** The side-by-side step of `RemoveLastAdded`. */
  lemma RemoveFromPair(a: string, b: string, d: string)
    requires Member(a) && Member(b) && Owner(d)
    ensures RemoveFromSides(Sides(d, Group(Or(a, b))), b) == Ok(Conj(a, d))
  {
    GroupOpens(Or(a, b));
    DropLastMember(a, b);
    PaddedPlain(a);
    PaddedPlain(d);
  }

  /**
   * Removing the member added last to a larger group takes it out of the
   * parentheses and keeps the rest of the group: the inverse of `AddToGroup`.
   */
  lemma RemoveFromGroup(m: string, b: string, d: string)
    requires GroupBody(m) && Member(b) && Owner(d)
    requires Contains(m, "|") && !Contains(m, b)
    ensures RemoveSignerFromExpr(Conj(Group(Or(m, b)), d), b) == Ok(Conj(Group(m), d))
  {
    LastMemberMentioned(m, b, d);
    BarMemberBody(m, b);
    SidesOfGroup(Or(m, b), d);
    RemoveBySides(Conj(Group(Or(m, b)), d), b);
    RemoveLastFromSides(m, b, d);
  }

  /** The last member of a group is mentioned by the expression. */
  lemma LastMemberMentioned(m: string, b: string, d: string)
    ensures Contains(Conj(Group(Or(m, b)), d), b)
  {
    var g := Group(Or(m, b));
    SelfContains(b);
    assert g == "(" + m + " | " + b + ")";
    ContainsInfix("(" + m + " | ", b, ")", b);
    ConjContains(g, d, b);
  }

  /** The side-by-side step of `RemoveFromGroup`. */
  lemma RemoveLastFromSides(m: string, b: string, d: string)
    requires GroupBody(m) && Member(b) && Owner(d)
    requires Contains(m, "|") && !Contains(m, b)
    ensures RemoveFromSides(Sides(d, Group(Or(m, b))), b) == Ok(Conj(Group(m), d))
  {
    GroupOpens(Or(m, b));
    DropTrailingMember(m, b);
    ContainsInfix("(", m, ")", "|");
    PaddedPlain(d);
  }

  /**
   * Removing the first member of a group of three or more drops it with the
   * bar after it and keeps the rest of the group.
   */
  lemma RemoveFirstMember(a: string, m: string, d: string)
    requires Member(a) && GroupBody(m) && Owner(d)
    requires Contains(m, "|") && !Contains(m, a)
    ensures RemoveSignerFromExpr(Conj(Group(Or(a, m)), d), a) == Ok(Conj(Group(m), d))
  {
    RemoveFirst(a, m, d);
  }

  /** Removing the first of two members leaves the second one and the owner. */
  lemma RemoveFirstOfTwo(a: string, b: string, d: string)
    requires Member(a) && Member(b) && Owner(d)
    requires !Contains(b, a)
    ensures RemoveSignerFromExpr(Conj(Group(Or(a, b)), d), a) == Ok(Conj(b, d))
  {
    ContainsChar(b, '|');
    assert '|' !in b by {
      forall i | 0 <= i < |b| ensures b[i] != '|' { }
    }
    RemoveFirst(a, b, d);
  }

  /**
   * Removing the first member of a group drops it with the bar after it; a
   * group left with one member loses its parentheses.
   */
  lemma RemoveFirst(a: string, m: string, d: string)
    requires Member(a) && GroupBody(m) && Owner(d)
    requires Contains(m, "|") || (|m| > 0 && m[0] != ' ')
    requires !Contains(m, a)
    ensures RemoveSignerFromExpr(Conj(Group(Or(a, m)), d), a)
      == Ok(Conj(if Contains(m, "|") then Group(m) else m, d))
  {
    FirstMemberMentioned(a, m, d);
    MemberBarBody(a, m);
    SidesOfGroup(Or(a, m), d);
    RemoveBySides(Conj(Group(Or(a, m)), d), a);
    RemoveFirstFromSides(a, m, d);
  }

  /** The first member of a group is mentioned by the expression. */
  lemma FirstMemberMentioned(a: string, m: string, d: string)
    ensures Contains(Conj(Group(Or(a, m)), d), a)
  {
    var g := Group(Or(a, m));
    SelfContains(a);
    ContainsInfix("(", a, " | " + m + ")", a);
    assert "(" + a + (" | " + m + ")") == g;
    ConjContains(g, d, a);
  }

  /** The side-by-side step of `RemoveFirstMember`. */
  lemma RemoveFirstFromSides(a: string, m: string, d: string)
    requires Member(a) && GroupBody(m) && Owner(d)
    requires Contains(m, "|") || (|m| > 0 && m[0] != ' ')
    requires !Contains(m, a)
    ensures RemoveFromSides(Sides(d, Group(Or(a, m))), a)
      == Ok(Conj(if Contains(m, "|") then Group(m) else m, d))
  {
    GroupOpens(Or(a, m));
    NoBarBefore(a, m);
    DropLeadingMember(a, m);
    PaddedPlain(d);
    UnwrapBody(m);
  }

  /** A group keeps its parentheses while it holds a bar and loses them otherwise. */
  lemma UnwrapBody(m: string)
    requires GroupBody(m) && (Contains(m, "|") || (|m| > 0 && m[0] != ' '))
    ensures RemoveSpace(Unwrap(Group(m))) == if Contains(m, "|") then Group(m) else m
  {
    if Contains(m, "|") {
      ContainsInfix("(", m, ")", "|");
    } else {
      ContainsChar(m, '|');
      ContainsChar(Group(m), '|');
      assert '|' !in Group(m) by {
        forall i | 0 <= i < |Group(m)| ensures Group(m)[i] != '|' {
          if 0 < i < |Group(m)| - 1 { assert Group(m)[i] == m[i - 1]; }
        }
      }
      TrimGroup(m);
    }
  }

  /** Appending a member keeps a well-formed group body. */
  lemma BarMemberBody(m: string, b: string)
    requires GroupBody(m) && Member(b)
    ensures GroupBody(Or(m, b))
  {
    var o := Or(m, b);
    forall i | 0 <= i < |o| ensures o[i] != '&' && o[i] != '(' && o[i] != ')' {
      if i < |m| { assert o[i] == m[i]; }
      else if i >= |m| + 3 { assert o[i] == b[i - |m| - 3]; }
    }
    assert o[|o| - 1] == b[|b| - 1];
  }

  /** Prepending a member keeps a well-formed group body. */
  lemma MemberBarBody(a: string, m: string)
    requires Member(a) && GroupBody(m) && |m| > 0
    ensures GroupBody(Or(a, m))
  {
    var o := Or(a, m);
    forall i | 0 <= i < |o| ensures o[i] != '&' && o[i] != '(' && o[i] != ')' {
      if i < |a| { assert o[i] == a[i]; }
      else if i >= |a| + 3 { assert o[i] == m[i - |a| - 3]; }
    }
    assert o[|o| - 1] == m[|m| - 1];
  }

  /** `" | b"` occurs in `(m | b)` only at its end, so cutting it leaves `(m)`. */
  lemma DropTrailingMember(m: string, b: string)
    requires GroupBody(m) && Member(b) && !Contains(m, b)
    ensures Contains(Group(Or(m, b)), " | " + b)
    ensures ReplaceAll(Group(Or(m, b)), " | " + b, "") == Group(m)
  {
    var pat := " | " + b;
    var x := "(" + m;
    var s := x + pat + ")";
    assert Group(Or(m, b)) == s;
    SelfContains(pat);
    ContainsInfix(x, pat, ")", pat);
    forall i | 0 <= i < |x|
      ensures !OccursAt(s, pat, i)
    {
      NoEarlyBar(m, b, i);
    }
    ContainsIff(")", pat);
    ReplaceOnce(x, pat, ")", "");
    assert x + "" + ")" == Group(m);
  }

  /** No occurrence of `" | b"` in `(m | b)` starts inside `(m`. */
  lemma NoEarlyBar(m: string, b: string, i: int)
    requires Member(b) && !Contains(m, b)
    requires 0 <= i < |m| + 1
    ensures !OccursAt("(" + m + (" | " + b) + ")", " | " + b, i)
  {
    if i + |b| + 3 <= |m| + 1 {
      BarInsideBody(m, b, i);
    } else {
      BarAcrossBody(m, b, i);
    }
  }

  /** A `" | b"` inside `(m` would put `b` inside `m`. */
  lemma BarInsideBody(m: string, b: string, i: int)
    requires !Contains(m, b)
    requires 0 <= i && i + |b| + 3 <= |m| + 1
    ensures ("(" + m + (" | " + b) + ")")[i..i + |b| + 3] != " | " + b
  {
    var s := "(" + m + (" | " + b) + ")";
    var w := s[i..i + |b| + 3];
    assert s[1..|m| + 1] == m;
    assert w[3..] == s[i + 3..i + 3 + |b|];
    assert s[i + 3..i + 3 + |b|] == s[1..|m| + 1][i + 2..i + 2 + |b|];
    Absent(m, b, i + 2);
    assert (" | " + b)[3..] == b;
  }

  /** A `" | b"` that starts in `(m` and runs past it meets the bar in the wrong place. */
  lemma BarAcrossBody(m: string, b: string, i: int)
    requires Member(b)
    requires 0 <= i < |m| + 1 < i + |b| + 3
    ensures !OccursAt("(" + m + (" | " + b) + ")", " | " + b, i)
  {
    var pat := " | " + b;
    var x := "(" + m;
    var s := x + pat + ")";
    if i + |pat| <= |s| {
      var w := s[i..i + |pat|];
      var j := |x| - i;
      assert w[j] == s[|x|] == ' ';
      if j == 1 {
        assert w[1] != pat[1];
      } else if j == 2 {
        assert w[3] == s[|x| + 1] == '|';
        assert w[3] != pat[3];
      } else {
        assert w[j] != pat[j];
      }
    }
  }

  /** A word that `s` does not contain is at no position of `s`. */
  lemma Absent(s: string, word: string, k: int)
    requires !Contains(s, word)
    requires 0 <= k && k + |word| <= |s|
    ensures s[k..k + |word|] != word
  {
    ContainsIff(s, word);
    assert !OccursAt(s, word, k);
  }

  /** `"a | "` occurs in `(a | m)` only after the parenthesis, so cutting it leaves `(m)`. */
  lemma DropLeadingMember(a: string, m: string)
    requires Member(a) && !Contains(m, a)
    ensures Contains(Group(Or(a, m)), a + " | ")
    ensures ReplaceAll(Group(Or(a, m)), a + " | ", "") == Group(m)
  {
    var pat := a + " | ";
    var y := m + ")";
    var s := "(" + pat + y;
    assert Group(Or(a, m)) == s;
    SelfContains(pat);
    ContainsInfix("(", pat, y, pat);
    assert !OccursAt(s, pat, 0) by {
      assert s[0] == '(' && pat[0] == a[0];
    }
    NoMemberBarInTail(a, m);
    ReplaceOnce("(", pat, y, "");
    assert "(" + "" + y == Group(m);
  }

  /** `"a | "` does not occur in `m)` when `a` is not in `m`. */
  lemma NoMemberBarInTail(a: string, m: string)
    requires Member(a) && !Contains(m, a)
    ensures !Contains(m + ")", a + " | ")
  {
    var pat := a + " | ";
    var y := m + ")";
    ContainsIff(y, pat);
    forall k | OccursAt(y, pat, k) ensures false {
      assert y[k..k + |pat|][..|a|] == a;
      assert y[k..k + |pat|][..|a|] == y[k..k + |a|];
      assert k + |a| <= |m| && y[..|m|] == m;
      assert y[k..k + |a|] == m[k..k + |a|];
      Absent(m, a, k);
    }
  }

  /** `" | a"` does not occur in `(a | m)` when `a` is not in `m`. */
  lemma NoBarBefore(a: string, m: string)
    requires Member(a) && !Contains(m, a)
    ensures !Contains(Group(Or(a, m)), " | " + a)
  {
    var pat := " | " + a;
    var s := Group(Or(a, m));
    if Contains(s, pat) {
      ContainsIff(s, pat);
      var k :| OccursAt(s, pat, k);
      NoBarAt(a, m, k);
    }
  }

  /** No `" | a"` starts at position `k` of `(a | m)`. */
  lemma NoBarAt(a: string, m: string, k: int)
    requires Member(a) && !Contains(m, a)
    ensures !OccursAt(Group(Or(a, m)), " | " + a, k)
  {
    var s := "(" + a + " | " + (m + ")");
    assert Group(Or(a, m)) == s;
    if 0 <= k && k + |a| + 3 <= |s| {
      if k <= |a| {
        BarNotInHead(a, m + ")", k);
      } else {
        BarNotInTail(a, m, k);
      }
    }
  }

  /** `(a` holds no space, so no `" | a"` starts there. */
  lemma BarNotInHead(a: string, y: string, k: int)
    requires Member(a)
    requires 0 <= k <= |a| && k + |a| + 3 <= |a| + 4 + |y|
    ensures ("(" + a + " | " + y)[k..k + |a| + 3] != " | " + a
  {
    var s := "(" + a + " | " + y;
    if k == 0 {
      assert s[k..k + |a| + 3][0] == '(';
    } else {
      assert s[k..k + |a| + 3][0] == a[k - 1] != ' ';
    }
  }

  /** A `" | a"` starting after the first member would put `a` inside `m)`. */
  lemma BarNotInTail(a: string, m: string, k: int)
    requires Member(a) && !Contains(m, a)
    requires |a| < k && k + |a| + 3 <= |a| + 5 + |m|
    ensures ("(" + a + " | " + (m + ")"))[k..k + |a| + 3] != " | " + a
  {
    var y := m + ")";
    var s := "(" + a + " | " + y;
    var q := k - |a| - 1;
    assert s[|a| + 4..] == y;
    assert s[k..k + |a| + 3][3..] == y[q..q + |a|];
    NotInTail(a, m, q);
    assert (" | " + a)[3..] == a;
  }

  /** `a` does not occur in `m)` when `m` does not contain it. */
  lemma NotInTail(a: string, m: string, q: int)
    requires Member(a) && !Contains(m, a)
    requires 0 <= q && q + |a| <= |m| + 1
    ensures (m + ")")[q..q + |a|] != a
  {
    var y := m + ")";
    if q + |a| <= |m| {
      assert y[q..q + |a|] == m[q..q + |a|];
      Absent(m, a, q);
    } else {
      assert y[q..q + |a|][|a| - 1] == ')' != a[|a| - 1];
    }
  }

  /** Trimming the parentheses off a group gives back its body. */
  lemma TrimGroup(m: string)
    requires GroupBody(m) && |m| > 0
    ensures TrimChar(TrimChar(Group(m), '('), ')') == m
  {
    var g := Group(m);
    assert g[1..] == m + ")";
    assert TrimLeftChar(m + ")", '(') == m + ")";
    assert TrimRightChar(m + ")", '(') == m + ")";
    assert TrimLeftChar(m + ")", ')') == m + ")";
    assert (m + ")")[..|m + ")"| - 1] == m;
    assert TrimRightChar(m, ')') == m by {
      assert m[|m| - 1] != ')';
    }
  }

  lemma SelfContains(s: string)
    ensures Contains(s, s)
  {
    ContainsIff(s, s);
    assert OccursAt(s, s, 0);
  }

  /** `a & b` splits at its one `&` into `a ` and ` b`. */
  lemma ConjSplit(a: string, b: string)
    requires '&' !in a && '&' !in b
    ensures Split(Conj(a, b), '&') == [a + " ", " " + b]
  {
    assert Conj(a, b) == (a + " ") + ['&'] + (" " + b);
    SplitTwo(a + " ", " " + b, '&');
  }

  lemma {:induction false} SplitTwo(a: string, b: string, sep: char)
    requires sep !in a && sep !in b
    ensures Split(a + [sep] + b, sep) == [a, b]
  {
    var s := a + [sep] + b;
    if a == [] {
      assert s[1..] == b;
      SplitNoSep(b, sep);
    } else {
      assert s[1..] == a[1..] + [sep] + b;
      SplitTwo(a[1..], b, sep);
      assert [a[0]] + a[1..] == a;
    }
  }

  /** One space on either side does not change which words a string holds. */
  lemma PadContains(a: string, word: string)
    requires |word| > 0 && word[0] != ' ' && word[|word| - 1] != ' '
    ensures Contains(" " + a, word) <==> Contains(a, word)
    ensures Contains(a + " ", word) <==> Contains(a, word)
  {
    var p := " " + a + " ";
    RemoveSpacePadded(a);
    if Contains(" " + a, word) {
      ContainsInfix("", " " + a, " ", word);
      assert "" + (" " + a) + " " == p;
      RemoveSpaceKeeps(p, word);
    }
    if Contains(a + " ", word) {
      ContainsInfix(" ", a + " ", "", word);
      assert " " + (a + " ") + "" == p;
      RemoveSpaceKeeps(p, word);
    }
    if Contains(a, word) {
      ContainsInfix(" ", a, "", word);
      assert " " + a + "" == " " + a;
      ContainsInfix("", a, " ", word);
      assert "" + a + " " == a + " ";
    }
  }

  /** An identity loses exactly the one space it is padded with. */
  lemma PaddedPlain(a: string)
    requires |a| > 0 && Plain(a)
    ensures RemoveSpace(" " + a) == a && RemoveSpace(a + " ") == a
    ensures '&' !in a
  {
    assert a[|a| - 1] != ' ' && a[0] != ' ';
    assert (" " + a)[|" " + a| - 1] == a[|a| - 1];
    assert HasSuffix(a + " ", " ");
    assert TrimSuffix(a + " ", " ") == a;
    assert HasPrefix(" " + a, " ");
  }

  /** Replacing the one occurrence of `pat` that is not preceded by another. */
  lemma {:induction false} ReplaceOnce(x: string, pat: string, y: string, rep: string)
    requires |pat| > 0
    requires forall i :: 0 <= i < |x| ==> !OccursAt(x + pat + y, pat, i)
    requires !Contains(y, pat)
    ensures ReplaceAll(x + pat + y, pat, rep) == x + rep + y
  {
    var s := x + pat + y;
    if x == [] {
      assert s == pat + y;
      assert s[..|pat|] == pat && s[|pat|..] == y;
      ReplaceAbsent(y, pat, rep);
    } else {
      assert !OccursAt(s, pat, 0);
      assert s[..|pat|] != pat;
      var t := x[1..] + pat + y;
      assert s[1..] == t;
      forall i | 0 <= i < |x[1..]| ensures !OccursAt(t, pat, i) {
        assert !OccursAt(s, pat, i + 1);
        assert t[i..i + |pat|] == s[i + 1..i + 1 + |pat|];
      }
      ReplaceOnce(x[1..], pat, y, rep);
      assert [x[0]] + (x[1..] + rep + y) == x + rep + y;
    }
  }

  /** A group of one member loses its parentheses. */
  lemma UnwrapGroup(a: string)
    requires Member(a)
    ensures Unwrap(Group(a)) == a
  {
    var g := Group(a);
    assert g[1..] == a + ")";
    assert TrimLeftChar(g, '(') == TrimLeftChar(a + ")", '(');
    assert (a + ")")[0] == a[0];
    assert TrimLeftChar(a + ")", '(') == a + ")";
    assert TrimRightChar(a + ")", '(') == a + ")";
    assert TrimLeftChar(a + ")", ')') == a + ")";
    assert (a + ")")[..|a + ")"| - 1] == a;
    assert TrimRightChar(a, ')') == a by {
      assert a[|a| - 1] != ')';
    }
    ContainsChar(g, '|');
  }

  // ---------------------------------------------------------------------
  // The guards of addSigner and removeSigner
  // ---------------------------------------------------------------------

  /** Only reader and garage darcs have their members changed. */
  predicate MembersEditable(description: string) {
    description == "Reader darc" || description == "Garage darc"
  }

  /** The expression part of `addSigner`: the guard, then the rewriting. */
  function AddSigner(description: string, expr: string, id: string): (r: Result<string>)
    ensures !MembersEditable(description) ==>
      r == Err("Signer can be added only for a Reader or Garage Darc")
    ensures MembersEditable(description) ==> r == AddSignerToExpr(expr, id)
  {
    if !MembersEditable(description) then Err("Signer can be added only for a Reader or Garage Darc")
    else AddSignerToExpr(expr, id)
  }

  /** The expression part of `removeSigner`: the guard, then the rewriting. */
  function RemoveSigner(description: string, expr: string, id: string): (r: Result<string>)
    ensures !MembersEditable(description) ==>
      r == Err("Signer can be removed only from a Reader or Garage Darc")
    ensures MembersEditable(description) ==> r == RemoveSignerFromExpr(expr, id)
  {
    if !MembersEditable(description) then Err("Signer can be removed only from a Reader or Garage Darc")
    else RemoveSignerFromExpr(expr, id)
  }
}
