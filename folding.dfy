/**
 * The folding of dotted identifier paths that `parse_identifiers` performs (the function in
 * syntactical_analysis/utils.py and the method of the same name in expression_analyzer.py,
 * which are the same loop): every run `a . b . c` of identifier and dot tokens becomes one
 * IdentifierInfo named "a.b.c" with the type of the field it ends at, and every other token
 * is kept. This module states that loop as a function, step by step, and proves what it
 * computes: expanding each folded path back into tokens gives the input again, and every
 * folded path names the identifier it resolves to.
 */
module Folding {
  import opened Wrappers
  import opened Errors
  import opened Tokens
  import opened Operands

  // ---------------------------------------------------------------------------------
  // Fields.

  /** No two fields share a name. */
  predicate UniqueNames(fields: seq<Identifier>) {
    forall j, k :: 0 <= j < k < |fields| ==> fields[j].name != fields[k].name
  }

  /** Field names are unique at every level of nesting. */
  predicate UniqueFields(id: Identifier)
    decreases id
  {
    UniqueNames(id.fields) && forall k :: 0 <= k < |id.fields| ==> UniqueFields(id.fields[k])
  }

  predicate TableFieldsUnique(sym: SymbolTable) {
    forall n :: n in sym ==> UniqueFields(sym[n])
  }

  /** The last field named `n`, if any. */
  function FieldNamed(fields: seq<Identifier>, n: string): (r: Option<Identifier>)
    ensures r.Some? ==> r.value in fields && r.value.name == n
    ensures r.None? ==> forall k :: 0 <= k < |fields| ==> fields[k].name != n
    decreases |fields|
  {
    if |fields| == 0 then None
    else
      var rest := FieldNamed(fields[1..], n);
      if rest.Some? then rest
      else if fields[0].name == n then Some(fields[0])
      else
        assert forall k :: 1 <= k < |fields| ==> fields[k] == fields[1..][k - 1];
        None
  }

  lemma {:induction false} NoFieldNamed(fields: seq<Identifier>, n: string)
    requires forall k :: 0 <= k < |fields| ==> fields[k].name != n
    ensures FieldNamed(fields, n).None?
    decreases |fields|
  {
    if |fields| > 0 {
      forall k | 0 <= k < |fields[1..]|
        ensures fields[1..][k].name != n
      {
        assert fields[1..][k] == fields[k + 1];
      }
      NoFieldNamed(fields[1..], n);
    }
  }

  /**
   * The `for field in identifier.fields` loop: each field named `n` becomes the current
   * identifier and appends `.n` to the path, and `found` records that one did.
   */
  function ScanFields(fields: seq<Identifier>, n: string, id: Identifier, name: string, found: bool)
    : (r: (Identifier, string, bool))
    ensures r.2 == (found || FieldNamed(fields, n).Some?)
    ensures FieldNamed(fields, n).Some? ==> r.0 == FieldNamed(fields, n).value
    ensures FieldNamed(fields, n).None? ==> r.0 == id && r.1 == name
    ensures UniqueNames(fields) && FieldNamed(fields, n).Some? ==> r.1 == name + "." + n
    decreases |fields|
  {
    if |fields| == 0 then (id, name, found)
    else
      assert UniqueNames(fields) ==> UniqueNames(fields[1..]) by {
        if UniqueNames(fields) {
          forall j, k | 0 <= j < k < |fields[1..]|
            ensures fields[1..][j].name != fields[1..][k].name
          {
            assert fields[1..][j] == fields[j + 1] && fields[1..][k] == fields[k + 1];
          }
        }
      }
      if fields[0].name == n then
        assert UniqueNames(fields) ==> FieldNamed(fields[1..], n).None? by {
          if UniqueNames(fields) {
            forall k | 0 <= k < |fields[1..]|
              ensures fields[1..][k].name != n
            {
              assert fields[1..][k] == fields[k + 1];
            }
            NoFieldNamed(fields[1..], n);
          }
        }
        ScanFields(fields[1..], n, fields[0], name + "." + n, true)
      else
        ScanFields(fields[1..], n, id, name, found)
  }

  // ---------------------------------------------------------------------------------
  // The loop, one token at a time.

  /** The loop's variables: `result`, `identifier` and `full_name`. */
  datatype FoldState = FoldState(acc: seq<Item>, cur: Option<Identifier>, name: string)

  const Start := FoldState([], None, "")

  /** One iteration of the loop, on token `i`. */
  function FoldStep(s: seq<Token>, sym: SymbolTable, i: nat, st: FoldState): Result<FoldState>
    requires i < |s|
  {
    if s[i].Ident? then
      var n := s[i].name;
      if st.cur.None? then
        var id := Lookup(sym, n);
        if id.category.None? then Err(UnknownVar)
        else if id.category == Some(TypeCategory) then Err(VarNameExpected)
        else Ok(FoldState(st.acc, Some(id), st.name + n))
      else if Prev(s, i) == Point then
        var sc := ScanFields(st.cur.value.fields, n, st.cur.value, st.name, false);
        if !sc.2 then Err(UnknownField)
        else Ok(FoldState(st.acc, Some(sc.0), sc.1))
      else Err(Analysis)
    else if s[i] == Point then
      // Only the token after the dot is checked: the test on the one before it is a tuple,
      // which is always true.
      if i + 1 >= |s| then Err(IndexOutOfRange)
      else if s[i + 1].Ident? then Ok(st)
      else Err(WrongToken)
    else
      var acc := if st.cur.Some? then st.acc + [Info(st.name, st.cur.value.typ)] else st.acc;
      Ok(FoldState(acc + [Tok(s[i])], None, ""))
  }

  /** After the last token a pending path is flushed as well. */
  function Finish(st: FoldState): seq<Item> {
    if st.cur.Some? then st.acc + [Info(st.name, st.cur.value.typ)] else st.acc
  }

  /** The loop run from token `i` in state `st`. */
  function FoldFrom(s: seq<Token>, sym: SymbolTable, i: nat, st: FoldState): Result<seq<Item>>
    requires i <= |s|
    decreases |s| - i
  {
    if i == |s| then Ok(Finish(st))
    else
      match FoldStep(s, sym, i, st)
      case Err(e) => Err(e)
      case Ok(st') => FoldFrom(s, sym, i + 1, st')
  }

  /** `parse_identifiers(tokens)`. */
  function FoldPaths(s: seq<Token>, sym: SymbolTable): Result<seq<Item>> {
    FoldFrom(s, sym, 0, Start)
  }

  // ---------------------------------------------------------------------------------
  // Reading a folded list back.

  /** `s.split('.')`. */
  function Segments(s: string): (r: seq<string>)
    ensures |r| > 0
    decreases |s|
  {
    if |s| == 0 then [""]
    else
      var init := Segments(s[..|s| - 1]);
      if s[|s| - 1] == '.' then init + [""]
      else init[..|init| - 1] + [init[|init| - 1] + [s[|s| - 1]]]
  }

  /** The tokens `a . b . c` of a path. */
  function PathTokens(segs: seq<string>): seq<Token>
    requires |segs| > 0
    decreases |segs|
  {
    if |segs| == 1 then [Ident(segs[0])]
    else PathTokens(segs[..|segs| - 1]) + [Point, Ident(segs[|segs| - 1])]
  }

  function ExpandItem(it: Item): seq<Token> {
    match it
    case Tok(t) => [t]
    case Info(fullName, _) => PathTokens(Segments(fullName))
    case Temp(_) => []
  }

  function Expand(items: seq<Item>): seq<Token>
    decreases |items|
  {
    if |items| == 0 then []
    else Expand(items[..|items| - 1]) + ExpandItem(items[|items| - 1])
  }

  /** The identifier a path names: the root's entry, then one field per segment. */
  function Resolve(sym: SymbolTable, segs: seq<string>): Option<Identifier>
    requires |segs| > 0
    decreases |segs|
  {
    if |segs| == 1 then Some(Lookup(sym, segs[0]))
    else
      match Resolve(sym, segs[..|segs| - 1])
      case None => None
      case Some(id) => FieldNamed(id.fields, segs[|segs| - 1])
  }

  /** A folded path resolves, and carries the type of what it resolves to. */
  predicate Resolves(sym: SymbolTable, it: Item)
    requires it.Info?
  {
    var r := Resolve(sym, Segments(it.fullName));
    r.Some? && r.value.typ == it.typ
  }

  /** Identifier names never contain a dot: the dot is a token of its own. */
  predicate DotFreeNames(s: seq<Token>) {
    forall i :: 0 <= i < |s| && s[i].Ident? ==> '.' !in s[i].name
  }

  /** Every dot follows an identifier. */
  predicate PointsFollowIdents(s: seq<Token>) {
    forall i :: 0 <= i < |s| && s[i] == Point ==> 0 < i && s[i - 1].Ident?
  }

  /** A list with no identifier or dot tokens left in it. */
  predicate Folded(items: seq<Item>) {
    forall j :: 0 <= j < |items| ==> !IsRawPathPart(items[j])
  }

  lemma {:induction false} SegmentsOfName(n: string)
    requires '.' !in n
    ensures Segments(n) == [n]
    decreases |n|
  {
    if |n| > 0 {
      var m := n[..|n| - 1];
      forall k | 0 <= k < |m|
        ensures m[k] != '.'
      {
        assert m[k] == n[k] && n[k] in n;
      }
      SegmentsOfName(m);
      assert n == m + [n[|n| - 1]];
    }
  }

  lemma {:induction false} SegmentsExtend(p: string, n: string)
    requires '.' !in n
    ensures Segments(p + "." + n) == Segments(p) + [n]
    decreases |n|
  {
    var w := p + "." + n;
    if |n| == 0 {
      assert w[..|w| - 1] == p;
    } else {
      var m := n[..|n| - 1];
      forall k | 0 <= k < |m|
        ensures m[k] != '.'
      {
        assert m[k] == n[k] && n[k] in n;
      }
      SegmentsExtend(p, m);
      assert w[..|w| - 1] == p + "." + m;
      assert n == m + [n[|n| - 1]];
    }
  }

  lemma ExpandAppend(items: seq<Item>, it: Item)
    ensures Expand(items + [it]) == Expand(items) + ExpandItem(it)
  {
    assert (items + [it])[..|items|] == items;
  }

  lemma PathTokensExtend(segs: seq<string>, n: string)
    requires |segs| > 0
    ensures PathTokens(segs + [n]) == PathTokens(segs) + [Point, Ident(n)]
  {
    assert (segs + [n])[..|segs|] == segs;
  }

  lemma ResolveExtend(sym: SymbolTable, segs: seq<string>, n: string)
    requires |segs| > 0 && Resolve(sym, segs).Some?
    ensures Resolve(sym, segs + [n]) == FieldNamed(Resolve(sym, segs).value.fields, n)
  {
    assert (segs + [n])[..|segs|] == segs;
  }

  /** What holds of the loop's variables after the first `i` tokens, when input is well formed. */
  ghost predicate FoldInv(s: seq<Token>, sym: SymbolTable, i: nat, st: FoldState) {
    i <= |s|
    && Folded(st.acc)
    && (forall j :: 0 <= j < |st.acc| && st.acc[j].Info? ==> Resolves(sym, st.acc[j]))
    && (i == 0 ==> st.cur.None?)
    && (st.cur.None? ==> st.name == "" && Expand(st.acc) == s[..i])
    && (st.cur.Some? ==> UniqueFields(st.cur.value) && Resolve(sym, Segments(st.name)) == st.cur)
    && (0 < i && s[i - 1].Ident? ==> st.cur.Some?)
    && (0 < i && s[i - 1] == Point ==>
          i < |s| && s[i].Ident? && st.cur.Some?
          && Expand(st.acc) + PathTokens(Segments(st.name)) + [Point] == s[..i])
    && (st.cur.Some? && !(0 < i && s[i - 1] == Point) ==>
          Expand(st.acc) + PathTokens(Segments(st.name)) == s[..i])
  }

  /** The first `i + 1` tokens are the first `i` and then token `i`. */
  lemma PrefixExtend(s: seq<Token>, i: nat)
    requires i < |s|
    ensures s[..i + 1] == s[..i] + [s[i]]
  {
  }

  lemma FlushKeepsInv(s: seq<Token>, sym: SymbolTable, i: nat, st: FoldState)
    requires i < |s| && FoldInv(s, sym, i, st)
    requires !s[i].Ident? && s[i] != Point
    ensures FoldStep(s, sym, i, st).Ok? && FoldInv(s, sym, i + 1, FoldStep(s, sym, i, st).value)
  {
    var acc := if st.cur.Some? then st.acc + [Info(st.name, st.cur.value.typ)] else st.acc;
    var acc' := acc + [Tok(s[i])];
    assert FoldStep(s, sym, i, st) == Ok(FoldState(acc', None, ""));
    if st.cur.Some? {
      ExpandAppend(st.acc, Info(st.name, st.cur.value.typ));
    }
    assert Expand(acc) == s[..i];
    ExpandAppend(acc, Tok(s[i]));
    PrefixExtend(s, i);
    forall j | 0 <= j < |acc'| && acc'[j].Info?
      ensures Resolves(sym, acc'[j])
    {
      if j < |st.acc| {
        assert acc'[j] == st.acc[j];
      }
    }
  }

  lemma PointKeepsInv(s: seq<Token>, sym: SymbolTable, i: nat, st: FoldState)
    requires i < |s| && FoldInv(s, sym, i, st) && PointsFollowIdents(s)
    requires s[i] == Point && FoldStep(s, sym, i, st).Ok?
    ensures FoldInv(s, sym, i + 1, FoldStep(s, sym, i, st).value)
  {
    assert FoldStep(s, sym, i, st) == Ok(st);
    PrefixExtend(s, i);
  }

  lemma StartKeepsInv(s: seq<Token>, sym: SymbolTable, i: nat, st: FoldState)
    requires i < |s| && FoldInv(s, sym, i, st) && DotFreeNames(s) && TableFieldsUnique(sym)
    requires s[i].Ident? && st.cur.None? && FoldStep(s, sym, i, st).Ok?
    ensures FoldInv(s, sym, i + 1, FoldStep(s, sym, i, st).value)
  {
    var n := s[i].name;
    var id := Lookup(sym, n);
    assert st.name + n == n;
    assert FoldStep(s, sym, i, st) == Ok(FoldState(st.acc, Some(id), n));
    SegmentsOfName(n);
    PrefixExtend(s, i);
  }

  lemma ExtendStep(s: seq<Token>, sym: SymbolTable, i: nat, st: FoldState)
    requires i < |s| && s[i].Ident? && st.cur.Some? && UniqueFields(st.cur.value)
    requires FoldStep(s, sym, i, st).Ok?
    ensures Prev(s, i) == Point
    ensures FieldNamed(st.cur.value.fields, s[i].name).Some?
    ensures FoldStep(s, sym, i, st) ==
      Ok(FoldState(st.acc, FieldNamed(st.cur.value.fields, s[i].name), st.name + "." + s[i].name))
  {
  }

  /** Extending a path by `. n` extends its tokens by the dot and `n`. */
  lemma ExtendTokens(s: seq<Token>, i: nat, acc: seq<Token>, name: string, n: string)
    requires i < |s| && s[i] == Ident(n) && '.' !in n
    requires acc + PathTokens(Segments(name)) + [Point] == s[..i]
    ensures acc + PathTokens(Segments(name + "." + n)) == s[..i + 1]
  {
    var p := PathTokens(Segments(name));
    SegmentsExtend(name, n);
    PathTokensExtend(Segments(name), n);
    PrefixExtend(s, i);
    assert acc + (p + [Point, Ident(n)]) == acc + p + [Point] + [Ident(n)];
  }

  /** A field of an identifier whose field names are unique at every level has them too. */
  lemma FieldUnique(id: Identifier, f: Identifier)
    requires UniqueFields(id) && f in id.fields
    ensures UniqueFields(f)
  {
    var k :| 0 <= k < |id.fields| && id.fields[k] == f;
  }

  lemma ExtendInv(s: seq<Token>, sym: SymbolTable, i: nat, st: FoldState, f: Identifier)
    requires i < |s| && FoldInv(s, sym, i, st) && DotFreeNames(s)
    requires s[i].Ident? && st.cur.Some? && Prev(s, i) == Point
    requires UniqueFields(st.cur.value) && FieldNamed(st.cur.value.fields, s[i].name) == Some(f)
    ensures FoldInv(s, sym, i + 1, FoldState(st.acc, Some(f), st.name + "." + s[i].name))
  {
    var n := s[i].name;
    var st' := FoldState(st.acc, Some(f), st.name + "." + n);
    assert 0 < i && s[i - 1] == Point;
    ExtendTokens(s, i, Expand(st.acc), st.name, n);
    SegmentsExtend(st.name, n);
    ResolveExtend(sym, Segments(st.name), n);
    FieldUnique(st.cur.value, f);
    assert Resolve(sym, Segments(st'.name)) == Some(f);
  }

  lemma ExtendKeepsInv(s: seq<Token>, sym: SymbolTable, i: nat, st: FoldState)
    requires i < |s| && FoldInv(s, sym, i, st) && DotFreeNames(s)
    requires s[i].Ident? && st.cur.Some? && FoldStep(s, sym, i, st).Ok?
    ensures FoldInv(s, sym, i + 1, FoldStep(s, sym, i, st).value)
  {
    ExtendStep(s, sym, i, st);
    ExtendInv(s, sym, i, st, FieldNamed(st.cur.value.fields, s[i].name).value);
  }

  lemma StepKeepsInv(s: seq<Token>, sym: SymbolTable, i: nat, st: FoldState)
    requires i < |s| && FoldInv(s, sym, i, st)
    requires DotFreeNames(s) && PointsFollowIdents(s) && TableFieldsUnique(sym)
    requires FoldStep(s, sym, i, st).Ok?
    ensures FoldInv(s, sym, i + 1, FoldStep(s, sym, i, st).value)
  {
    if s[i].Ident? {
      if st.cur.None? {
        StartKeepsInv(s, sym, i, st);
      } else {
        ExtendKeepsInv(s, sym, i, st);
      }
    } else if s[i] == Point {
      PointKeepsInv(s, sym, i, st);
    } else {
      FlushKeepsInv(s, sym, i, st);
    }
  }

  /** After the last token, flushing the pending path gives the whole input back. */
  lemma FinishMeaning(s: seq<Token>, sym: SymbolTable, st: FoldState)
    requires FoldInv(s, sym, |s|, st)
    ensures var r := Finish(st);
      Expand(r) == s && Folded(r) && forall j :: 0 <= j < |r| && r[j].Info? ==> Resolves(sym, r[j])
  {
    assert s[..|s|] == s;
    if st.cur.Some? {
      var last := Info(st.name, st.cur.value.typ);
      assert !(0 < |s| && s[|s| - 1] == Point);
      assert Expand(st.acc) + PathTokens(Segments(st.name)) == s;
      ExpandAppend(st.acc, last);
      var r := st.acc + [last];
      forall j | 0 <= j < |r|
        ensures !IsRawPathPart(r[j]) && (r[j].Info? ==> Resolves(sym, r[j]))
      {
        if j < |st.acc| {
          assert r[j] == st.acc[j];
        }
      }
    }
  }

  lemma {:induction false} FoldFromMeaning(s: seq<Token>, sym: SymbolTable, i: nat, st: FoldState)
    requires i <= |s| && FoldInv(s, sym, i, st)
    requires DotFreeNames(s) && PointsFollowIdents(s) && TableFieldsUnique(sym)
    requires FoldFrom(s, sym, i, st).Ok?
    ensures var r := FoldFrom(s, sym, i, st).value;
      Expand(r) == s && Folded(r) && forall j :: 0 <= j < |r| && r[j].Info? ==> Resolves(sym, r[j])
    decreases |s| - i
  {
    if i == |s| {
      FinishMeaning(s, sym, st);
    } else {
      StepKeepsInv(s, sym, i, st);
      FoldFromMeaning(s, sym, i + 1, FoldStep(s, sym, i, st).value);
    }
  }

  /**
   * On well-formed input a successful fold loses nothing: expanding every folded path
   * back into `a . b` tokens gives the input again, no identifier or dot token is left
   * unfolded, and every folded path resolves through the symbol table to an identifier
   * of the type it carries.
   */
  lemma FoldPathsMeaning(s: seq<Token>, sym: SymbolTable)
    requires DotFreeNames(s) && PointsFollowIdents(s) && TableFieldsUnique(sym)
    requires FoldPaths(s, sym).Ok?
    ensures var r := FoldPaths(s, sym).value;
      Expand(r) == s && Folded(r) && forall j :: 0 <= j < |r| && r[j].Info? ==> Resolves(sym, r[j])
  {
    FoldFromMeaning(s, sym, 0, Start);
  }

  // ---------------------------------------------------------------------------------
  // Promises of the fold that hold for every input.

  /** No temp var in a list: the fold itself never creates one. */
  predicate NoTemps(items: seq<Item>) {
    forall j :: 0 <= j < |items| ==> !items[j].Temp?
  }

  lemma StepKeepsFolded(s: seq<Token>, sym: SymbolTable, i: nat, st: FoldState)
    requires i < |s| && Folded(st.acc) && NoTemps(st.acc) && FoldStep(s, sym, i, st).Ok?
    ensures var acc' := FoldStep(s, sym, i, st).value.acc; Folded(acc') && NoTemps(acc')
  {
    if !s[i].Ident? && s[i] != Point {
      var acc := if st.cur.Some? then st.acc + [Info(st.name, st.cur.value.typ)] else st.acc;
      var acc' := acc + [Tok(s[i])];
      assert FoldStep(s, sym, i, st).value.acc == acc';
      forall j | 0 <= j < |acc'|
        ensures !IsRawPathPart(acc'[j]) && !acc'[j].Temp?
      {
        if j < |st.acc| {
          assert acc'[j] == st.acc[j];
        }
      }
    }
  }

  lemma FinishKeepsFolded(st: FoldState)
    requires Folded(st.acc) && NoTemps(st.acc)
    ensures Folded(Finish(st)) && NoTemps(Finish(st))
  {
    var r := Finish(st);
    forall j | 0 <= j < |r|
      ensures !IsRawPathPart(r[j]) && !r[j].Temp?
    {
      if j < |st.acc| {
        assert r[j] == st.acc[j];
      }
    }
  }

  lemma {:induction false} FoldFromFolded(s: seq<Token>, sym: SymbolTable, i: nat, st: FoldState)
    requires i <= |s| && Folded(st.acc) && NoTemps(st.acc) && FoldFrom(s, sym, i, st).Ok?
    ensures var r := FoldFrom(s, sym, i, st).value; Folded(r) && NoTemps(r)
    decreases |s| - i
  {
    if i == |s| {
      FinishKeepsFolded(st);
    } else {
      StepKeepsFolded(s, sym, i, st);
      FoldFromFolded(s, sym, i + 1, FoldStep(s, sym, i, st).value);
    }
  }

  /**
   * On any input, a successful fold leaves no bare identifier or dot token and no temp
   * var: every identifier has gone into a folded path.
   */
  lemma FoldPathsFolded(s: seq<Token>, sym: SymbolTable)
    requires FoldPaths(s, sym).Ok?
    ensures var r := FoldPaths(s, sym).value; Folded(r) && NoTemps(r)
  {
    FoldFromFolded(s, sym, 0, Start);
  }

  /** Tokens that are neither identifiers nor dots. */
  predicate PathFree(s: seq<Token>) {
    forall k :: 0 <= k < |s| ==> !s[k].Ident? && s[k] != Point
  }

  lemma {:induction false} FoldFromPathFree(s: seq<Token>, sym: SymbolTable, i: nat)
    requires i <= |s| && PathFree(s)
    ensures FoldFrom(s, sym, i, FoldState(AsItems(s[..i]), None, "")) == Ok(AsItems(s))
    decreases |s| - i
  {
    if i == |s| {
      assert s[..i] == s;
    } else {
      var acc := AsItems(s[..i]);
      assert !s[i].Ident? && s[i] != Point;
      assert FoldStep(s, sym, i, FoldState(acc, None, "")) == Ok(FoldState(acc + [Tok(s[i])], None, ""));
      assert acc + [Tok(s[i])] == AsItems(s[..i + 1]);
      FoldFromPathFree(s, sym, i + 1);
    }
  }

  /** A list with no identifier and no dot comes back unchanged, whatever the table. */
  lemma FoldPathsKeepsPathFree(s: seq<Token>, sym: SymbolTable)
    requires PathFree(s)
    ensures FoldPaths(s, sym) == Ok(AsItems(s))
  {
    assert AsItems(s[..0]) == [];
    FoldFromPathFree(s, sym, 0);
  }

  /**
   * Wherever the loop reaches an identifier with no path pending, a path starts there and
   * must start at a declared variable: an unknown name or a type name fails.
   */
  lemma FoldFromRejectsBadHead(s: seq<Token>, sym: SymbolTable, i: nat, st: FoldState)
    requires i < |s| && s[i].Ident? && st.cur.None?
    ensures Lookup(sym, s[i].name).category == None ==> FoldFrom(s, sym, i, st) == Err(UnknownVar)
    ensures Lookup(sym, s[i].name).category == Some(TypeCategory) ==>
      FoldFrom(s, sym, i, st) == Err(VarNameExpected)
  {
  }

  /** In particular at the first token. */
  lemma FoldRejectsBadHead(s: seq<Token>, sym: SymbolTable)
    requires |s| > 0 && s[0].Ident?
    ensures Lookup(sym, s[0].name).category == None ==> FoldPaths(s, sym) == Err(UnknownVar)
    ensures Lookup(sym, s[0].name).category == Some(TypeCategory) ==>
      FoldPaths(s, sym) == Err(VarNameExpected)
  {
    FoldFromRejectsBadHead(s, sym, 0, Start);
  }

  /** The name after a dot must be a field of the identifier the path has reached. */
  lemma FoldFromRejectsUnknownField(s: seq<Token>, sym: SymbolTable, i: nat, st: FoldState)
    requires i < |s| && s[i].Ident? && st.cur.Some? && Prev(s, i) == Point
    requires FieldNamed(st.cur.value.fields, s[i].name).None?
    ensures FoldFrom(s, sym, i, st) == Err(UnknownField)
  {
  }

  /** Two names with no dot between them do not form a path. */
  lemma FoldFromRejectsAdjacentNames(s: seq<Token>, sym: SymbolTable, i: nat, st: FoldState)
    requires i < |s| && s[i].Ident? && st.cur.Some? && Prev(s, i) != Point
    ensures FoldFrom(s, sym, i, st) == Err(Analysis)
  {
  }

  /** `x = y` with `y` undeclared fails at `y`, after `x` has been folded. */
  lemma {:induction false} UndeclaredRightSideFails(sym: SymbolTable, x: string, y: string)
    requires Lookup(sym, x).category == Some(VarCategory) && Lookup(sym, y).category == None
    ensures FoldPaths([Ident(x), Assignment, Ident(y)], sym) == Err(UnknownVar)
  {
    var s := [Ident(x), Assignment, Ident(y)];
    var id := Lookup(sym, x);
    assert Start.name + x == x;
    var st1 := FoldState([], Some(id), x);
    assert FoldStep(s, sym, 0, Start) == Ok(st1);
    var st2 := FoldState([Info(x, id.typ), Tok(Assignment)], None, "");
    assert s[1] == Assignment && s[2] == Ident(y);
    assert st1.acc + [Info(st1.name, st1.cur.value.typ)] == [Info(x, id.typ)];
    assert FoldStep(s, sym, 1, st1) == Ok(FoldState([Info(x, id.typ)] + [Tok(Assignment)], None, ""));
    assert [Info(x, id.typ)] + [Tok(Assignment)] == [Info(x, id.typ), Tok(Assignment)];
    assert FoldFrom(s, sym, 1, st1) == FoldFrom(s, sym, 2, st2);
    FoldFromRejectsBadHead(s, sym, 2, st2);
  }

  /** A dot with no identifier before it is accepted and dropped. */
  lemma {:induction false} LeadingPointIsDropped(sym: SymbolTable, n: string)
    requires Lookup(sym, n).category == Some(VarCategory)
    ensures FoldPaths([Point, Ident(n)], sym) == Ok([Info(n, Lookup(sym, n).typ)])
  {
    var s := [Point, Ident(n)];
    var id := Lookup(sym, n);
    assert FoldStep(s, sym, 0, Start) == Ok(Start);
    assert s[1] == Ident(n);
    assert Start.name + n == n;
    assert FoldStep(s, sym, 1, Start) == Ok(FoldState([], Some(id), n));
    var st := FoldState([], Some(id), n);
    assert Finish(st) == [Info(n, id.typ)];
    assert FoldFrom(s, sym, 2, st) == Ok([Info(n, id.typ)]);
    assert FoldFrom(s, sym, 1, Start) == FoldFrom(s, sym, 2, st);
    assert FoldFrom(s, sym, 0, Start) == FoldFrom(s, sym, 1, Start);
  }
}
