/** The list of monitored symbols (main.py, add_command and delete_command). */
module Watchlist {
  import opened Wrappers
  import opened Access

  /** Upper-cases an ASCII letter and leaves every other character alone. */
  function UpperChar(c: char): (u: char)
    ensures 'a' <= c <= 'z' ==> u as int == c as int - 32
    ensures !('a' <= c <= 'z') ==> u == c
    ensures !('a' <= u <= 'z')
  {
    if 'a' <= c <= 'z' then (c as int - 32) as char else c
  }

  /** Upper-cases a command argument, character by character. */
  function Upper(s: string): (r: string)
    ensures |r| == |s|
    ensures forall i :: 0 <= i < |s| ==> r[i] == UpperChar(s[i])
  {
    if s == [] then [] else [UpperChar(s[0])] + Upper(s[1..])
  }

  /** Upper-casing an upper-cased symbol changes nothing. */
  lemma UpperIdempotent(s: string)
    ensures Upper(Upper(s)) == Upper(s)
  {
    var u := Upper(s);
    assert forall i :: 0 <= i < |u| ==> Upper(u)[i] == u[i];
  }

  /** No symbol appears twice. */
  predicate NoDuplicates(pairs: seq<string>)
  {
    forall i, j :: 0 <= i < j < |pairs| ==> pairs[i] != pairs[j]
  }

  /** How many times `x` occurs in `s`. */
  function Count(s: seq<string>, x: string): nat
  {
    if s == [] then 0 else (if s[0] == x then 1 else 0) + Count(s[1..], x)
  }

  /** Occurrences in a concatenation add up. */
  lemma {:induction false} CountConcat(a: seq<string>, b: seq<string>, x: string)
    ensures Count(a + b, x) == Count(a, x) + Count(b, x)
  {
    if a == [] {
      assert a + b == b;
    } else {
      assert (a + b)[1..] == a[1..] + b;
      CountConcat(a[1..], b, x);
    }
  }

  /** A symbol that is not in the list occurs zero times. */
  lemma {:induction false} CountAbsent(s: seq<string>, x: string)
    requires x !in s
    ensures Count(s, x) == 0
  {
    if s != [] {
      CountAbsent(s[1..], x);
    }
  }

  /** Index of the first occurrence of `x`. */
  function IndexOf(s: seq<string>, x: string): (i: nat)
    requires x in s
    ensures i < |s| && s[i] == x
    ensures x !in s[..i]
  {
    if s[0] == x then 0 else 1 + IndexOf(s[1..], x)
  }

  /** Removes the first occurrence of `x`, keeping the order of the rest. */
  function RemoveFirst(s: seq<string>, x: string): (r: seq<string>)
    requires x in s
    ensures |r| == |s| - 1
    ensures multiset(r) == multiset(s) - multiset{x}
    ensures s == r[..IndexOf(s, x)] + [x] + r[IndexOf(s, x)..]
  {
    var i := IndexOf(s, x);
    assert s == s[..i] + [x] + s[i + 1..];
    s[..i] + s[i + 1..]
  }

  /** Dropping one entry of a duplicate-free list removes exactly that value and keeps the list duplicate-free. */
  lemma DropAtNoDuplicates(s: seq<string>, i: nat)
    requires i < |s| && NoDuplicates(s)
    ensures var r := s[..i] + s[i + 1..];
      && s[i] !in r
      && NoDuplicates(r)
      && forall y :: y in r <==> y in s && y != s[i]
  {
    var r := s[..i] + s[i + 1..];
    assert forall k :: 0 <= k < |r| ==> r[k] == (if k < i then s[k] else s[k + 1]);
    forall k | 0 <= k < |r| ensures r[k] != s[i] {
      if k < i { assert s[k] != s[i]; } else { assert s[i] != s[k + 1]; }
    }
    forall k, l | 0 <= k < l < |r| ensures r[k] != r[l] {
      var k', l' := if k < i then k else k + 1, if l < i then l else l + 1;
      assert r[k] == s[k'] && r[l] == s[l'] && k' < l';
    }
    forall y | y in s && y != s[i] ensures y in r {
      var k :| 0 <= k < |s| && s[k] == y;
      if k < i { assert r[k] == y; } else { assert r[k - 1] == y; }
    }
  }

  /** On a duplicate-free list, removal takes the symbol out and keeps the list duplicate-free. */
  lemma RemoveFirstOfNoDuplicates(s: seq<string>, x: string)
    requires x in s && NoDuplicates(s)
    ensures x !in RemoveFirst(s, x)
    ensures NoDuplicates(RemoveFirst(s, x))
    ensures forall y :: y in RemoveFirst(s, x) <==> y in s && y != x
  {
    var i := IndexOf(s, x);
    DropAtNoDuplicates(s, i);
    assert RemoveFirst(s, x) == s[..i] + s[i + 1..];
  }

  /** Replies of /add, without their wording. */
  datatype AddReply =
    | AddNotAuthorized
    | AddMissingSymbol
    | AlreadyMonitored(symbol: string)
    | PairNotFound(symbol: string)
    | Added(symbol: string, price: real)

  /** Replies of /delete, without their wording. */
  datatype DeleteReply =
    | DeleteNotAuthorized
    | DeleteMissingSymbol
    | NotMonitored(symbol: string)
    | Removed(symbol: string)

  /** The watchlist after a command, and the reply sent to the user. */
  datatype AddResult = AddResult(pairs: seq<string>, reply: AddReply)
  datatype DeleteResult = DeleteResult(pairs: seq<string>, reply: DeleteReply)

  /**
   * /add: `args` are the command's words and `lookup` the price source's answer
   * for the upper-cased first word, consulted only once it is known not to be
   * a duplicate. A success appends the symbol.
   */
  function AddCommand(pairs: seq<string>, allowed: seq<UserId>, user: UserId,
                      args: seq<string>, lookup: Option<real>): (r: AddResult)
    ensures r.reply.Added? <==> user in allowed && |args| > 0 && Upper(args[0]) !in pairs && lookup.Some?
    ensures r.reply.Added? ==> r.pairs == pairs + [Upper(args[0])] && r.reply == Added(Upper(args[0]), lookup.value)
    ensures !r.reply.Added? ==> r.pairs == pairs
    ensures !(user in allowed) ==> r.reply == AddNotAuthorized
    ensures user in allowed && |args| == 0 ==> r.reply == AddMissingSymbol
    ensures user in allowed && |args| > 0 && Upper(args[0]) in pairs ==> r.reply == AlreadyMonitored(Upper(args[0]))
    ensures user in allowed && |args| > 0 && Upper(args[0]) !in pairs && lookup.None? ==>
      r.reply == PairNotFound(Upper(args[0]))
  {
    if !CheckAuth(allowed, user) then AddResult(pairs, AddNotAuthorized)
    else if |args| == 0 then AddResult(pairs, AddMissingSymbol)
    else
      var symbol := Upper(args[0]);
      if symbol in pairs then AddResult(pairs, AlreadyMonitored(symbol))
      else match lookup
        case None => AddResult(pairs, PairNotFound(symbol))
        case Some(price) => AddResult(pairs + [symbol], Added(symbol, price))
  }

  /**
   * /delete: takes the upper-cased first word out of the list, or reports that
   * it is not monitored.
   */
  function DeleteCommand(pairs: seq<string>, allowed: seq<UserId>, user: UserId,
                         args: seq<string>): (r: DeleteResult)
    ensures r.reply.Removed? <==> user in allowed && |args| > 0 && Upper(args[0]) in pairs
    ensures r.reply.Removed? ==> r.reply.symbol == Upper(args[0]) && |r.pairs| == |pairs| - 1
    ensures r.reply.Removed? ==> r.pairs == RemoveFirst(pairs, Upper(args[0]))
    ensures !r.reply.Removed? ==> r.pairs == pairs
    ensures !(user in allowed) ==> r.reply == DeleteNotAuthorized
    ensures user in allowed && |args| == 0 ==> r.reply == DeleteMissingSymbol
    ensures user in allowed && |args| > 0 && Upper(args[0]) !in pairs ==> r.reply == NotMonitored(Upper(args[0]))
  {
    if !CheckAuth(allowed, user) then DeleteResult(pairs, DeleteNotAuthorized)
    else if |args| == 0 then DeleteResult(pairs, DeleteMissingSymbol)
    else
      var symbol := Upper(args[0]);
      if symbol !in pairs then DeleteResult(pairs, NotMonitored(symbol))
      else DeleteResult(RemoveFirst(pairs, symbol), Removed(symbol))
  }

  /** A successful /add leaves the symbol in the list exactly once, and no duplicates anywhere. */
  lemma AddKeepsNoDuplicates(pairs: seq<string>, allowed: seq<UserId>, user: UserId,
                             args: seq<string>, lookup: Option<real>)
    requires NoDuplicates(pairs)
    ensures var r := AddCommand(pairs, allowed, user, args, lookup);
      && NoDuplicates(r.pairs)
      && (r.reply.Added? ==> Count(r.pairs, r.reply.symbol) == 1)
  {
    var r := AddCommand(pairs, allowed, user, args, lookup);
    if r.reply.Added? {
      var x := r.reply.symbol;
      CountConcat(pairs, [x], x);
      CountAbsent(pairs, x);
      assert Count([x], x) == 1 by {
        assert [x][1..] == [];
      }
    }
  }

  /** A successful /delete leaves the symbol absent, the other symbols in their order, and no duplicates. */
  lemma DeleteKeepsNoDuplicates(pairs: seq<string>, allowed: seq<UserId>, user: UserId, args: seq<string>)
    requires NoDuplicates(pairs)
    ensures var r := DeleteCommand(pairs, allowed, user, args);
      && NoDuplicates(r.pairs)
      && (r.reply.Removed? ==>
            && r.reply.symbol !in r.pairs
            && (forall y :: y in r.pairs <==> y in pairs && y != r.reply.symbol)
            && r.pairs == pairs[..IndexOf(pairs, r.reply.symbol)] + pairs[IndexOf(pairs, r.reply.symbol) + 1..])
  {
    var r := DeleteCommand(pairs, allowed, user, args);
    if r.reply.Removed? {
      RemoveFirstOfNoDuplicates(pairs, r.reply.symbol);
    }
  }

  /** Adding a new symbol and then deleting it, by either spelling, restores the list. */
  lemma AddThenDeleteRestores(pairs: seq<string>, allowed: seq<UserId>, user: UserId,
                              add: string, del: string, price: real)
    requires user in allowed && Upper(add) !in pairs && Upper(del) == Upper(add)
    ensures var a := AddCommand(pairs, allowed, user, [add], Some(price));
      var d := DeleteCommand(a.pairs, allowed, user, [del]);
      a.reply == Added(Upper(add), price) && d.reply == Removed(Upper(add)) && d.pairs == pairs
  {
    var x := Upper(add);
    var s := pairs + [x];
    assert s[|pairs|] == x;
    var i := IndexOf(s, x);
    assert s[..|pairs|] == pairs;
    assert s[..i] == pairs;
  }
}
