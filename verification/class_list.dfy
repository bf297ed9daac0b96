/** An element's `classList` (a DOM token list): an ordered set of class
    tokens. `remove` drops the given tokens and keeps the rest in order;
    `add` appends a token that is not already present. */
module ClassList {

  /** ASCII whitespace as the DOM defines it: tab, line feed, form feed,
      carriage return and space */
  predicate IsSpace(c: char) {
    c == ' ' || c == '\t' || c == '\n' || c == '\r' || c as int == 12
  }

  /** A string `classList.add` accepts: it throws on the empty string and on
      a string containing whitespace */
  predicate IsToken(t: string) {
    |t| > 0 && forall i :: 0 <= i < |t| ==> !IsSpace(t[i])
  }

  /** A well-formed token list: valid tokens, none repeated */
  predicate IsTokenList(l: seq<string>) {
    && (forall i :: 0 <= i < |l| ==> IsToken(l[i]))
    && (forall i, j :: 0 <= i < j < |l| ==> l[i] != l[j])
  }

  /** `classList.remove(...tokens)` */
  function Remove(l: seq<string>, tokens: set<string>): (r: seq<string>)
    ensures forall t :: t in r <==> t in l && t !in tokens
    ensures |r| <= |l|
    ensures IsTokenList(l) ==> IsTokenList(r)
  {
    if |l| == 0 then []
    else if l[0] in tokens then Remove(l[1..], tokens)
    else [l[0]] + Remove(l[1..], tokens)
  }

  /** `classList.add(token)` */
  function Add(l: seq<string>, token: string): (r: seq<string>)
    requires IsToken(token)
    ensures forall t :: t in r <==> t in l || t == token
    ensures IsTokenList(l) ==> IsTokenList(r)
    ensures token !in l ==> r[|r| - 1] == token
  {
    if token in l then l else l + [token]
  }

  /** Removing tokens from a list that holds none of them changes nothing */
  lemma {:induction false} RemoveAbsent(l: seq<string>, tokens: set<string>)
    requires forall i :: 0 <= i < |l| ==> l[i] !in tokens
    ensures Remove(l, tokens) == l
  {
    if |l| > 0 {
      RemoveAbsent(l[1..], tokens);
      assert l == [l[0]] + l[1..];
    }
  }

  /** Removal distributes over concatenation */
  lemma {:induction false} RemoveAppend(a: seq<string>, b: seq<string>, tokens: set<string>)
    ensures Remove(a + b, tokens) == Remove(a, tokens) + Remove(b, tokens)
  {
    if |a| == 0 {
      assert a + b == b;
    } else {
      assert (a + b)[1..] == a[1..] + b;
      RemoveAppend(a[1..], b, tokens);
    }
  }

  /** Removing a set of tokens and then a larger set is removing the larger set */
  lemma {:induction false} RemoveTwice(l: seq<string>, small: set<string>, large: set<string>)
    requires small <= large
    ensures Remove(Remove(l, small), large) == Remove(l, large)
  {
    if |l| > 0 {
      RemoveTwice(l[1..], small, large);
    }
  }
}
