/** Executing a compiled regex that needs no complications: simpleFind() as a whole (regexec.c:312-411),
    the search for the match and the search for its submatches. */
module Exec {
  import opened Nfa
  import opened Cnfa
  import opened Subres
  import opened Dissect
  import opened Search

  /** Success with the whole match and the captures of its groups, or the reason there is none. */
  datatype Outcome =
    | NoMatchAtAll
    | Unlocated
    | Whole(begin: nat, end: nat, caps: Caps)
    | DissectFailed
    | CacheFailed

  /** The search succeeds exactly when there is a match, reports the leftmost and, from there, the
      preferred one, and then divides it among the groups. With a complete tree the division cannot
      fail and is the preferred one. */
  method SimpleFindAll(search: Cnfa, tree: Subre, x: Ctx, small: bool, ghost b: set<Arc>, ghost arcs: set<Arc>,
                       ghost keys: set<nat>, ghost loops: set<nat>, ghost cp: map<nat, nat>, ghost rainbow: seq<nat>)
    returns (r: Outcome, ghost p: Parse)
    requires IsSearch(search, b, arcs, keys, loops, cp, rainbow) && RealText(search, x.text, rainbow) && Fits(search, x.text)
    requires Usable(x, tree)
    requires SameMatches(tree.cnfa, search, x.text, arcs) && |x.chars| == x.text.Stop()
    ensures r == NoMatchAtAll <==> forall s: nat, e: nat :: !Acc(x, tree, s, e)
    ensures r == Unlocated <==> x.nmatch == 0 && exists s: nat, e: nat :: Acc(x, tree, s, e)
    ensures r.Whole? ==> IsPreferred(tree.cnfa, x.text, tree.shorter, r.begin, Options.Some(r.end))
    ensures r.Whole? ==> forall s: nat, e: nat :: s < r.begin ==> !Acc(x, tree, s, e)
    ensures r.Whole? && x.nmatch > 1 ==> Dissected(x, tree, p, r.begin, r.end, map[], r.caps)
    ensures r.DissectFailed? ==> x.nmatch > 1 && exists s: nat, e: nat :: IsPreferred(tree.cnfa, x.text, tree.shorter, s, Options.Some(e)) && InVain(x, tree, s, e, map[])
    ensures Complete(x, tree) ==> !r.DissectFailed?
    ensures !r.CacheFailed?
  {
    hide SameMatches, IsSearch, RealText, Usable, Complete, IsPreferred, NeedsNoMore, Dissected;
    UsableHere(x, tree);
    p := Leaf;
    var found, extend := SimpleFind(search, tree.cnfa, x.text, tree.shorter, x.nmatch, small, b, arcs, keys, loops, cp, rainbow);
    match found {
      case Failed =>
        r := CacheFailed;
      case NoMatch =>
        assert forall s: nat, e: nat :: Acc(x, tree, s, e) ==> Matches(tree.cnfa, x.text, s, e);
        r := NoMatchAtAll;
      case Okay =>
        ghost var s: nat, e: nat :| Matches(tree.cnfa, x.text, s, e);
        assert Acc(x, tree, s, e);
        r := Unlocated;
      case Located(begin, end) =>
        PreferredMatches(x, tree, begin, end);
        if x.nmatch == 1 { return Whole(begin, end, map[]), p; }
        var v := new Vars(x, small);
        var er;
        er, p := v.CDissect(tree, begin, end);
        if er == NOMATCH { assert InVain(x, tree, begin, end, map[]); }
        r := if er == OKAY then Whole(begin, end, v.pmatch) else DissectFailed;
    }
  }

  lemma PreferredMatches(x: Ctx, t: Subre, b: nat, e: nat)
    requires IsPreferred(t.cnfa, x.text, t.shorter, b, Options.Some(e))
    ensures Acc(x, t, b, e)
  {
  }
}
