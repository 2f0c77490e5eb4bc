/**
 * The variable-declaration block of a program (`_var_definition` and
 * `_add_identifier_category` in syntactical_analysis/analyzer.py). The block is a list of
 * lines `<type> <name>` and class declarations
 *
 *     class <Name>:
 *         <type> <field>
 *         ...
 *
 * and ends at the first `endblock_var_def` that starts a line. Each token is examined once,
 * in one of two modes (outside a class, or inside the declaration of one); a declaration
 * sets the category, type and fields of the identifier it declares. This module states one
 * token's step as a function, the whole scan as the repetition of that step, and proves what
 * the scan guarantees of where it stops and of the symbol table it produces.
 */
module Declarations {
  import opened Wrappers
  import opened Errors
  import opened Tokens
  import opened Folding

  // ---------------------------------------------------------------------------------
  // Declaring identifiers.

  /**
   * `_add_identifier_category`: a name can be declared once. Declaring it sets its
   * category, and its type when a type token is given; a variable of a class type receives
   * a copy of the class's fields. Nothing else in the table changes.
   */
  function AddIdentifierCategory(table: SymbolTable, name: string, c: Category, typeName: Option<string>)
    : (r: Result<SymbolTable>)
    requires c == VarCategory ==> typeName.Some?
    ensures r.Err? <==> Lookup(table, name).category.Some?
    ensures r.Err? ==> r.error == IdentifierRedeclaration
    ensures r.Ok? ==> Lookup(r.value, name).category == Some(c)
    ensures r.Ok? && typeName.Some? ==> Lookup(r.value, name).typ == typeName
    ensures r.Ok? && typeName.None? ==> Lookup(r.value, name).typ == Lookup(table, name).typ
    ensures r.Ok? && c == VarCategory && !IsPrimitive(typeName.value) ==>
      Lookup(r.value, name).fields == Lookup(table, typeName.value).fields
    ensures r.Ok? && (c == TypeCategory || IsPrimitive(typeName.value)) ==>
      Lookup(r.value, name).fields == Lookup(table, name).fields
    ensures r.Ok? ==> Lookup(r.value, name).name == Lookup(table, name).name
    ensures r.Ok? ==> Lookup(r.value, name).value == Lookup(table, name).value
    ensures r.Ok? ==> forall n :: n != name ==> Lookup(r.value, n) == Lookup(table, n)
  {
    var id := Lookup(table, name);
    if id.category.Some? then Err(IdentifierRedeclaration)
    else
      var typed := id.(category := Some(c), typ := if typeName.Some? then typeName else id.typ);
      var declared :=
        if c == VarCategory && !IsPrimitive(typeName.value)
        then typed.(fields := Lookup(table, typeName.value).fields)
        else typed;
      Ok(table[name := declared])
  }

  /**
   * `new_class_token.fields.append(...)`: a new variable field of type `typeName` at the end
   * of the fields of class `cls`, numbered by its position.
   */
  function AddField(table: SymbolTable, cls: string, field: string, typeName: string): (r: SymbolTable)
    ensures Lookup(r, cls).fields == Lookup(table, cls).fields
      + [Identifier(field, |Lookup(table, cls).fields|, Some(VarCategory), Some(typeName), [])]
    ensures Lookup(r, cls).category == Lookup(table, cls).category
    ensures Lookup(r, cls).typ == Lookup(table, cls).typ
    ensures forall n :: n != cls ==> Lookup(r, n) == Lookup(table, n)
  {
    var id := Lookup(table, cls);
    var f := Identifier(field, |id.fields|, Some(VarCategory), Some(typeName), []);
    table[cls := id.(fields := id.fields + [f])]
  }

  // ---------------------------------------------------------------------------------
  // One token.

  /** `in_class_declaration_state` together with `new_class_token`. */
  datatype Mode = Outside | InClass(cls: string)

  datatype DeclState = DeclState(mode: Mode, table: SymbolTable)

  /** What examining one token leads to: the next state, the end of the block, or an error. */
  datatype DeclStep = Proceed(state: DeclState) | Ended(index: nat) | Rejected(error: Error)

  predicate IsTypeName(table: SymbolTable, t: Token) {
    t.Ident? && Lookup(table, t.name).category == Some(TypeCategory)
  }

  /**
   * The token at `i` outside a class declaration. A class body opens only at `class Name`,
   * which declares `Name` a type; the table changes only where a name not declared before
   * is declared, and outside a class that is a variable declared after a type name.
   */
  function OutsideStep(ts: seq<Token>, i: nat, table: SymbolTable): (r: DeclStep)
    requires i < |ts|
    ensures r.Proceed? && r.state.mode.InClass? ==>
      ts[i] == Ident(r.state.mode.cls) && Prev(ts, i) == Class &&
      Lookup(r.state.table, r.state.mode.cls).category == Some(TypeCategory)
    ensures r.Proceed? && r.state.table != table ==>
      ts[i].Ident? && Lookup(table, ts[i].name).category.None? &&
      Lookup(r.state.table, ts[i].name).category.Some?
    ensures r.Proceed? && r.state.mode.Outside? && r.state.table != table ==>
      IsTypeName(table, Prev(ts, i)) && Lookup(r.state.table, ts[i].name).category == Some(VarCategory)
  {
    var t := ts[i];
    if t == NL then
      if i > 0 && (!ts[i - 1].Ident? || IsTypeName(table, ts[i - 1])) then Rejected(VarNameExpected)
      else Proceed(DeclState(Outside, table))
    else if t == EndBlockVarDef then
      if Prev(ts, i) != NL then Rejected(Analysis) else Ended(i)
    else if t == Class then
      if Prev(ts, i) != NL then Rejected(Analysis) else Proceed(DeclState(Outside, table))
    else if t.Ident? then
      var prev := Prev(ts, i);
      if prev == NL then
        if !IsTypeName(table, t) then Rejected(TypeNameExpected) else Proceed(DeclState(Outside, table))
      else if prev == Class then
        match AddIdentifierCategory(table, t.name, TypeCategory, None)
        case Err(e) => Rejected(e)
        case Ok(declared) => Proceed(DeclState(InClass(t.name), declared))
      else if IsTypeName(table, prev) then
        match AddIdentifierCategory(table, t.name, VarCategory, Some(prev.name))
        case Err(e) => Rejected(e)
        case Ok(declared) => Proceed(DeclState(Outside, declared))
      else Rejected(Analysis)
    else Proceed(DeclState(Outside, table))
  }

  /**
   * The token at `i` inside the declaration of class `cls`. The class body is left only at
   * a line break not followed by a tab, and the table changes only where a field whose
   * name the class does not have yet is appended to the class after an identifier.
   */
  function InClassStep(ts: seq<Token>, i: nat, cls: string, table: SymbolTable): (r: DeclStep)
    requires i < |ts|
    ensures r.Proceed? ==>
      r.state.mode == InClass(cls) ||
      (ts[i] == NL && i + 1 < |ts| && ts[i + 1] != Tab && r.state == DeclState(Outside, table))
    ensures r.Proceed? && r.state.table != table ==>
      ts[i].Ident? && Prev(ts, i).Ident? && FieldNamed(Lookup(table, cls).fields, ts[i].name).None? &&
      r.state.table == AddField(table, cls, ts[i].name, Prev(ts, i).name)
  {
    var t := ts[i];
    var prev := Prev(ts, i);
    var stay := Proceed(DeclState(InClass(cls), table));
    if t == Colon && prev == Ident(cls) then stay
    else if t == NL then
      if i + 1 == |ts| then Rejected(IndexOutOfRange)
      else if prev == Colon then (if ts[i + 1] != Tab then Rejected(TabExpected) else stay)
      else if ts[i + 1] == Tab then stay
      else Proceed(DeclState(Outside, table))
    else if t == Tab then
      if prev != NL then Rejected(NewLineExpected) else stay
    else if t.Ident? then
      if prev == Tab then
        if i + 1 == |ts| then Rejected(IndexOutOfRange)
        else if !IsTypeName(table, t) then Rejected(TypeNameExpected)
        else if !ts[i + 1].Ident? then Rejected(VarNameExpected)
        else stay
      else if prev.Ident? then
        if IsTypeName(table, t) then Rejected(VarNameExpected)
        else if FieldNamed(Lookup(table, cls).fields, t.name).Some? then Rejected(FieldRedeclaration)
        else Proceed(DeclState(InClass(cls), AddField(table, cls, t.name, prev.name)))
      else Rejected(Analysis)
    else Rejected(Analysis)
  }

  function StepAt(ts: seq<Token>, i: nat, st: DeclState): (r: DeclStep)
    requires i < |ts|
    ensures ts[i] == EndBlockVarDef ==> !r.Proceed?
    ensures ts[i] == EndBlockVarDef ==>
      r == (if st.mode.Outside? && Prev(ts, i) == NL then Ended(i) else Rejected(Analysis))
    ensures r.Ended? ==> r.index == i && ts[i] == EndBlockVarDef && Prev(ts, i) == NL && st.mode.Outside?
  {
    match st.mode
    case Outside => OutsideStep(ts, i, st.table)
    case InClass(cls) => InClassStep(ts, i, cls, st.table)
  }

  // ---------------------------------------------------------------------------------
  // The whole block.

  /**
   * Where the scan stopped and the table it left. `endIndex` is None when the scan ran off
   * the end of the tokens, where the source's loop finishes without returning a value.
   */
  datatype Declared = Declared(endIndex: Option<nat>, table: SymbolTable)

  /** The scan from token `i` on, in state `st`. */
  function VarDefFrom(ts: seq<Token>, i: nat, st: DeclState): Result<Declared>
    requires i <= |ts|
    decreases |ts| - i
  {
    if i == |ts| then Ok(Declared(None, st.table))
    else
      match StepAt(ts, i, st)
      case Rejected(e) => Err(e)
      case Ended(k) => Ok(Declared(Some(k), st.table))
      case Proceed(next) => VarDefFrom(ts, i + 1, next)
  }

  /** `_var_definition` on the tokens `ts` and the table `table`. */
  function VarDefinitionSpec(ts: seq<Token>, table: SymbolTable): Result<Declared> {
    VarDefFrom(ts, 0, DeclState(Outside, table))
  }

  /**
   * The scan stops at the first `endblock_var_def`, and only where a line starts with it;
   * it runs off the end only when there is no `endblock_var_def` at all.
   */
  lemma {:induction false} VarDefFromStopsAtFirstEnd(ts: seq<Token>, i: nat, st: DeclState)
    requires i <= |ts|
    ensures var r := VarDefFrom(ts, i, st);
      r.Ok? && r.value.endIndex.Some? ==>
        var k := r.value.endIndex.value;
        i <= k < |ts| && ts[k] == EndBlockVarDef && Prev(ts, k) == NL
        && EndBlockVarDef !in ts[i..k]
    ensures var r := VarDefFrom(ts, i, st);
      r.Ok? && r.value.endIndex.None? ==> EndBlockVarDef !in ts[i..]
    decreases |ts| - i
  {
    if i < |ts| {
      var s := StepAt(ts, i, st);
      if s.Proceed? {
        VarDefFromStopsAtFirstEnd(ts, i + 1, s.state);
        assert ts[i..] == [ts[i]] + ts[i + 1..];
        var r := VarDefFrom(ts, i + 1, s.state);
        if r.Ok? && r.value.endIndex.Some? {
          var k := r.value.endIndex.value;
          assert ts[i..k] == [ts[i]] + ts[i + 1..k];
        }
      } else if s.Ended? {
        assert ts[i..i] == [];
      }
    }
  }

  /** A block that contains `endblock_var_def` never runs off the end of the tokens. */
  lemma {:induction false} VarDefFromEnds(ts: seq<Token>, i: nat, st: DeclState)
    requires i <= |ts| && EndBlockVarDef in ts[i..]
    ensures VarDefFrom(ts, i, st).Ok? ==> VarDefFrom(ts, i, st).value.endIndex.Some?
  {
    VarDefFromStopsAtFirstEnd(ts, i, st);
  }

  /** `_var_definition` on a block holding `endblock_var_def` succeeds only with its index. */
  lemma VarDefinitionEnds(ts: seq<Token>, table: SymbolTable)
    requires EndBlockVarDef in ts
    ensures var r := VarDefinitionSpec(ts, table);
      r.Ok? ==> r.value.endIndex.Some? && r.value.endIndex.value < |ts|
  {
    assert ts[0..] == ts;
    VarDefFromStopsAtFirstEnd(ts, 0, DeclState(Outside, table));
    VarDefFromEnds(ts, 0, DeclState(Outside, table));
  }

  // ---------------------------------------------------------------------------------
  // The symbol table the scan produces.

  /** Every field is numbered by its position among its siblings. */
  predicate NumberedFields(id: Identifier)
    decreases id
  {
    (forall k :: 0 <= k < |id.fields| ==> id.fields[k].value == k) &&
    (forall k :: 0 <= k < |id.fields| ==> NumberedFields(id.fields[k]))
  }

  /** Field names are unique and fields are numbered by position, at every level. */
  ghost predicate WellFormedTable(table: SymbolTable) {
    TableFieldsUnique(table) && forall n :: n in table ==> NumberedFields(table[n])
  }

  lemma LookupWellFormed(table: SymbolTable, n: string)
    requires WellFormedTable(table)
    ensures UniqueFields(Lookup(table, n)) && NumberedFields(Lookup(table, n))
  {
  }

  /** An entry whose fields are those of some well-formed entry is itself well formed. */
  lemma SameFieldsWellFormed(a: Identifier, b: Identifier)
    requires a.fields == b.fields
    requires UniqueFields(b) && NumberedFields(b)
    ensures UniqueFields(a) && NumberedFields(a)
  {
  }

  lemma {:induction false} AddIdentifierCategoryKeepsWellFormed(
    table: SymbolTable, name: string, c: Category, typeName: Option<string>)
    requires c == VarCategory ==> typeName.Some?
    requires WellFormedTable(table)
    requires AddIdentifierCategory(table, name, c, typeName).Ok?
    ensures WellFormedTable(AddIdentifierCategory(table, name, c, typeName).value)
  {
    var t := AddIdentifierCategory(table, name, c, typeName).value;
    var id := Lookup(t, name);
    if c == VarCategory && !IsPrimitive(typeName.value) {
      LookupWellFormed(table, typeName.value);
      SameFieldsWellFormed(id, Lookup(table, typeName.value));
    } else {
      LookupWellFormed(table, name);
      SameFieldsWellFormed(id, Lookup(table, name));
    }
    forall n | n in t
      ensures UniqueFields(t[n]) && NumberedFields(t[n])
    {
      if n != name {
        assert t[n] == Lookup(t, n) == Lookup(table, n);
        LookupWellFormed(table, n);
      } else {
        assert t[n] == id;
      }
    }
  }

  lemma {:induction false} AddFieldKeepsWellFormed(table: SymbolTable, cls: string, field: string, typeName: string)
    requires WellFormedTable(table)
    requires FieldNamed(Lookup(table, cls).fields, field).None?
    ensures WellFormedTable(AddField(table, cls, field, typeName))
  {
    var t := AddField(table, cls, field, typeName);
    var old_fields := Lookup(table, cls).fields;
    var fs := Lookup(t, cls).fields;
    var f := fs[|old_fields|];
    LookupWellFormed(table, cls);
    assert fs == old_fields + [f];
    assert forall k :: 0 <= k < |old_fields| ==> fs[k] == old_fields[k];
    assert UniqueNames(fs);
    assert UniqueFields(f) && NumberedFields(f);
    assert UniqueFields(Lookup(t, cls)) && NumberedFields(Lookup(t, cls));
    forall n | n in t
      ensures UniqueFields(t[n]) && NumberedFields(t[n])
    {
      if n != cls {
        assert t[n] == Lookup(t, n) == Lookup(table, n);
        LookupWellFormed(table, n);
      } else {
        assert t[n] == Lookup(t, cls);
      }
    }
  }

  lemma StepKeepsWellFormed(ts: seq<Token>, i: nat, st: DeclState)
    requires i < |ts| && WellFormedTable(st.table)
    ensures StepAt(ts, i, st).Proceed? ==> WellFormedTable(StepAt(ts, i, st).state.table)
  {
    var t := ts[i];
    var prev := Prev(ts, i);
    match st.mode
    case Outside =>
      if t.Ident? && prev != NL && prev == Class && OutsideStep(ts, i, st.table).Proceed? {
        AddIdentifierCategoryKeepsWellFormed(st.table, t.name, TypeCategory, None);
      } else if t.Ident? && prev != NL && prev != Class && IsTypeName(st.table, prev)
        && OutsideStep(ts, i, st.table).Proceed? {
        AddIdentifierCategoryKeepsWellFormed(st.table, t.name, VarCategory, Some(prev.name));
      }
    case InClass(cls) =>
      if t.Ident? && prev != Tab && prev.Ident? && InClassStep(ts, i, cls, st.table).Proceed?
        && !(t == Colon && prev == Ident(cls)) {
        AddFieldKeepsWellFormed(st.table, cls, t.name, prev.name);
      }
  }

  /**
   * Declarations keep the table well formed: within every class no two fields share a
   * name, and each field's value is its position.
   */
  lemma {:induction false} VarDefFromKeepsWellFormed(ts: seq<Token>, i: nat, st: DeclState)
    requires i <= |ts| && WellFormedTable(st.table)
    ensures VarDefFrom(ts, i, st).Ok? ==> WellFormedTable(VarDefFrom(ts, i, st).value.table)
    decreases |ts| - i
  {
    if i < |ts| {
      var s := StepAt(ts, i, st);
      if s.Proceed? {
        StepKeepsWellFormed(ts, i, st);
        VarDefFromKeepsWellFormed(ts, i + 1, s.state);
      }
    }
  }

  /** A category, once set, is never changed. */
  ghost predicate KeepsCategories(before: SymbolTable, after: SymbolTable) {
    forall n :: Lookup(before, n).category.Some? ==> Lookup(after, n).category == Lookup(before, n).category
  }

  lemma StepKeepsCategories(ts: seq<Token>, i: nat, st: DeclState)
    requires i < |ts|
    ensures StepAt(ts, i, st).Proceed? ==> KeepsCategories(st.table, StepAt(ts, i, st).state.table)
  {
  }

  lemma {:induction false} VarDefFromKeepsCategories(ts: seq<Token>, i: nat, st: DeclState)
    requires i <= |ts|
    ensures VarDefFrom(ts, i, st).Ok? ==> KeepsCategories(st.table, VarDefFrom(ts, i, st).value.table)
    decreases |ts| - i
  {
    if i < |ts| {
      var s := StepAt(ts, i, st);
      if s.Proceed? {
        StepKeepsCategories(ts, i, st);
        VarDefFromKeepsCategories(ts, i + 1, s.state);
      }
    }
  }
}
