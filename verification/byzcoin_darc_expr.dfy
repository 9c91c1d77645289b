/**
 * The earlier copy of the member rewriting in the byzcoin car helpers
 * (byzcoin/darcstructure.go). It splits and widens exactly like the car
 * application's version, but an expression without an owner's darc side is
 * handed back unchanged instead of being reported as invalid.
 */
module ByzcoinDarcExpr {
  import opened Wrappers
  import opened GoStrings
  import opened DarcExpr

  /** `addSignerToExpr` of the byzcoin helpers: never fails. */
  function AddSignerToExpr(expr: string, id: string): (r: string)
    ensures '&' !in expr ==> r == Conj(expr, id)
    ensures '&' in expr && !Contains(Split(expr, '&')[0], Darc) && !Contains(Split(expr, '&')[1], Darc) ==>
      r == expr
    ensures r == expr || Contains(r, id)
    ensures Contains(expr, Darc) ==> Contains(r, Darc)
  {
    ContainsChar(expr, '&');
    if !Contains(expr, "&") then
      SelfContains(id);
      ConjContains(expr, id, id);
      ConjContains(expr, id, Darc);
      Conj(expr, id)
    else
      var sides := PickSides(Split(expr, '&'));
      var other := WidenGroup(sides.otherPart, id);
      if sides.darcPart == "" || other == "" then expr
      else
        AddedFacts(other, sides.darcPart, id);
        Conj(RemoveSpace(other), RemoveSpace(sides.darcPart))
  }

  /**
   * Both copies build the same expression; where the car application's copy
   * reports an invalid expression this one returns its input.
   */
  lemma AddAgrees(expr: string, id: string)
    ensures DarcExpr.AddSignerToExpr(expr, id).Ok? ==>
      AddSignerToExpr(expr, id) == DarcExpr.AddSignerToExpr(expr, id).value
    ensures DarcExpr.AddSignerToExpr(expr, id).Err? ==> AddSignerToExpr(expr, id) == expr
  {
    ContainsChar(expr, '&');
    if '&' in expr {
      AddBySides(expr, id);
    }
  }

  /** Adding to a group appends the new member inside the parentheses. */
  lemma AddToGroup(m: string, d: string, id: string)
    requires GroupBody(m) && Owner(d)
    ensures AddSignerToExpr(Conj(Group(m), d), id) == Conj(Group(Or(m, id)), d)
  {
    DarcExpr.AddToGroup(m, d, id);
    AddAgrees(Conj(Group(m), d), id);
  }
}
