/** Normalization of requested OAuth scopes (`_normalize_oauth_scope` in astrata/accounts/service.py). */
module AccountScopes {
  import opened Sequences
  import Text

  const RELAY_USE := "relay:use"

  /** The two older names of the relay's scope are translated. */
  function Translate(item: string): string {
    if item == "astrata:read" || item == "astrata:write" then RELAY_USE else item
  }

  function Collected(items: seq<string>): seq<string> {
    if items == [] then []
    else
      var before, item := Collected(items[..|items| - 1]), Text.Strip(items[|items| - 1]);
      if item == "" || Translate(item) in before then before else before + [Translate(item)]
  }

  /** The requested items, translated and each once, or the relay's scope when there are none. */
  function NormalizeScope(items: seq<string>): seq<string> {
    if Collected(items) == [] then [RELAY_USE] else Collected(items)
  }

  /** The trimmed item asks for this scope: for itself, or for the relay's scope by one of its two older names. */
  predicate Requests(item: string, x: string) {
    if item == "astrata:read" || item == "astrata:write" then x == "relay:use" else item != "" && item == x
  }

  /** Some item asks for this scope. */
  ghost predicate Asked(items: seq<string>, x: string) {
    exists i :: 0 <= i < |items| && Requests(Text.Strip(items[i]), x)
  }

  lemma {:induction false} CollectedExactly(items: seq<string>)
    ensures Distinct(Collected(items))
    ensures forall x :: x in Collected(items) <==> Asked(items, x)
  {
    if items != [] {
      var n := |items| - 1;
      CollectedExactly(items[..n]);
      forall x ensures x in Collected(items) <==> Asked(items, x) {
        AskedOneMore(items, x);
      }
    }
  }

  lemma AskedOneMore(items: seq<string>, x: string)
    requires items != []
    ensures var n := |items| - 1; Asked(items, x) <==> Asked(items[..n], x) || Requests(Text.Strip(items[n]), x)
  {
    var n := |items| - 1;
    if i :| 0 <= i < |items[..n]| && Requests(Text.Strip(items[..n][i]), x) {
      assert items[i] == items[..n][i];
    }
    if i :| 0 <= i < |items| && Requests(Text.Strip(items[i]), x) {
      assert i < n ==> items[..n][i] == items[i];
    }
  }

  /** A granted scope is never empty, has no repetition, and is what was asked for or the relay's own scope. */
  lemma ScopeExactly(items: seq<string>)
    ensures Distinct(NormalizeScope(items)) && NormalizeScope(items) != []
    ensures forall x :: x in NormalizeScope(items) <==> Asked(items, x) || (x == "relay:use" && forall y :: !Asked(items, y))
  {
    CollectedExactly(items);
    if Collected(items) != [] {
      assert Collected(items)[0] in Collected(items);
    }
  }

  /** Further items never change the scopes before theirs: a scope stands where it was first asked for. */
  lemma {:induction false} ScopeOrder(items: seq<string>, more: seq<string>)
    ensures Collected(items) <= Collected(items + more)
  {
    if more == [] {
      assert items + more == items;
    } else {
      var n := |more| - 1;
      ScopeOrder(items, more[..n]);
      assert (items + more)[..|items + more| - 1] == items + more[..n];
    }
  }

  method NormalizeOAuthScope(items: seq<string>) returns (translated: seq<string>)
    ensures translated == NormalizeScope(items)
  {
    translated := [];
    for i := 0 to |items|
      invariant translated == Collected(items[..i])
    {
      assert items[..i + 1][..i] == items[..i];
      var item := Text.Strip(items[i]);
      if item != "" {
        if item == "astrata:read" || item == "astrata:write" {
          item := RELAY_USE;
        }
        if item !in translated {
          translated := translated + [item];
        }
      }
    }
    assert items[..|items|] == items;
    if translated == [] {
      translated := [RELAY_USE];
    }
  }
}
