/**
 * What the expression analyzer's lists hold once dotted paths are folded: raw tokens,
 * resolved identifier paths (identifier_info.py's IdentifierInfo) and temp vars.
 * temp_var.py is not part of this model: a temp var is a name handed out by an
 * allocator the caller supplies, together with its type.
 */
module Operands {
  import opened Wrappers
  import opened Tokens

  datatype TempVar = TempVar(name: string, typ: string)

  datatype Item =
    | Tok(token: Token)
      /** IdentifierInfo(full_name, type); its `name` property is `fullName`. */
    | Info(fullName: string, typ: Option<string>)
    | Temp(temp: TempVar)

  predicate IsRawIdent(it: Item) {
    it.Tok? && it.token.Ident?
  }

  /** A raw identifier or dot token: what path folding consumes. */
  predicate IsRawPathPart(it: Item) {
    it.Tok? && (it.token.Ident? || it.token == Point)
  }

  /** The token list as the Python list the analyzer starts from. */
  function AsItems(ts: seq<Token>): (r: seq<Item>)
    ensures |r| == |ts| && forall i :: 0 <= i < |ts| ==> r[i] == Tok(ts[i])
  {
    seq(|ts|, i requires 0 <= i < |ts| => Tok(ts[i]))
  }

  /** `items.count(x)`. */
  function Count(items: seq<Item>, x: Item): (n: nat)
    ensures n <= |items|
    ensures n > 0 <==> x in items
    decreases |items|
  {
    if |items| == 0 then 0
    else
      var init := items[..|items| - 1];
      assert items == init + [items[|items| - 1]];
      Count(init, x) + (if items[|items| - 1] == x then 1 else 0)
  }

  lemma {:induction false} CountAppend(a: seq<Item>, b: seq<Item>, x: Item)
    ensures Count(a + b, x) == Count(a, x) + Count(b, x)
    decreases |b|
  {
    if |b| > 0 {
      var b' := b[..|b| - 1];
      assert (a + b)[..|a + b| - 1] == a + b';
      CountAppend(a, b', x);
    } else {
      assert a + b == a;
    }
  }

  /** `items.index(x)`: the first position of `x`. */
  function IndexOf(items: seq<Item>, x: Item): (k: nat)
    requires x in items
    ensures k < |items| && items[k] == x && x !in items[..k]
    decreases |items|
  {
    if items[0] == x then 0
    else
      var k := IndexOf(items[1..], x);
      assert items[..k + 1] == [items[0]] + items[1..][..k];
      k + 1
  }
}
