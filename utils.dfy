/**
 * syntactical_analysis/utils.py: `parse_identifiers`, the loop that folds dotted identifier
 * paths. expression_analyzer.py carries a copy of the same loop as a method; this module
 * is the one place it is given.
 */
module Utils {
  import opened Wrappers
  import opened Errors
  import opened Tokens
  import opened Operands
  import opened Folding

  /**
   * Folds every `a . b . c` run of the token list into one identifier path. The result is
   * the fold the Folding module defines, so a success loses nothing (FoldPathsMeaning).
   */
  method ParseIdentifiers(tokens: seq<Token>, sym: SymbolTable) returns (r: Result<seq<Item>>)
    ensures r == FoldPaths(tokens, sym)
  {
    var result: seq<Item> := [];
    var identifier: Option<Identifier> := None;
    var fullName := "";
    for ind := 0 to |tokens|
      invariant FoldFrom(tokens, sym, ind, FoldState(result, identifier, fullName)) == FoldPaths(tokens, sym)
      invariant identifier.None? ==> fullName == ""
    {
      ghost var st := FoldState(result, identifier, fullName);
      var token := tokens[ind];
      if token.Ident? {
        if identifier.None? {
          var id := Lookup(sym, token.name);
          if id.category.None? {
            return Err(UnknownVar);
          }
          if id.category == Some(TypeCategory) {
            return Err(VarNameExpected);
          }
          identifier := Some(id);
          fullName := fullName + token.name;
          assert FoldStep(tokens, sym, ind, st) == Ok(FoldState(result, identifier, fullName));
        } else {
          var prev := Prev(tokens, ind);
          if prev == Point {
            var fields := identifier.value.fields;
            var found := false;
            for j := 0 to |fields|
              invariant identifier.Some?
              invariant ScanFields(fields[j..], token.name, identifier.value, fullName, found)
                == ScanFields(fields, token.name, st.cur.value, st.name, false)
            {
              assert fields[j..][1..] == fields[j + 1..];
              if fields[j].name == token.name {
                identifier := Some(fields[j]);
                fullName := fullName + "." + token.name;
                found := true;
              }
            }
            assert fields[|fields|..] == [];
            if !found {
              return Err(UnknownField);
            }
            assert FoldStep(tokens, sym, ind, st) == Ok(FoldState(result, identifier, fullName));
          } else {
            return Err(Analysis);
          }
        }
      } else if token == Point {
        // `ind == len(tokens)` cannot hold inside the loop; the read past the end can.
        if ind + 1 >= |tokens| {
          return Err(IndexOutOfRange);
        }
        var next := tokens[ind + 1];
        if !next.Ident? {
          return Err(WrongToken);
        }
        assert FoldStep(tokens, sym, ind, st) == Ok(FoldState(result, identifier, fullName));
      } else {
        if identifier.Some? {
          result := result + [Info(fullName, identifier.value.typ)];
          identifier := None;
          fullName := "";
        }
        result := result + [Tok(token)];
        assert FoldStep(tokens, sym, ind, st) == Ok(FoldState(result, identifier, fullName));
      }
    }
    if identifier.Some? {
      result := result + [Info(fullName, identifier.value.typ)];
    }
    r := Ok(result);
  }
}
