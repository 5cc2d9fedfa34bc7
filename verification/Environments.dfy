/**
 The store of variables: tables of cells that are updated in place, and copies of them saved for a
 later reset. Restoring exactly what was saved depends on no live cell ever being a saved one.
 */
module Environments {
  import opened Results
  import opened VariantTypes
  import opened Language
  import opened Statements

  /** The cell of one variable. */
  class VariableInfo {
    var ty: Ty
    var value: Option<Value>

    constructor (ty: Ty, value: Option<Value>)
      ensures this.ty == ty && this.value == value
    {
      this.ty := ty;
      this.value := value;
    }
  }

  type Cells = map<string, VariableInfo>

  /** A new cell, which no earlier set of cells contains. */
  method NewCell(ty: Ty, value: Option<Value>, ghost others: set<object>) returns (info: VariableInfo)
    ensures fresh(info) && info !in others && info.ty == ty && info.value == value
  {
    info := new VariableInfo(ty, value);
  }

  /** What a table of cells holds. */
  function Contents(cells: Cells): map<string, Variable>
    reads set x | x in cells :: cells[x]
  {
    map x | x in cells :: Variable(cells[x].ty, cells[x].value)
  }

  predicate Injective(cells: Cells) {
    forall x, y | x in cells && y in cells && x != y :: cells[x] != cells[y]
  }

  ghost function CellSet(cells: Cells): set<object> {
    set x | x in cells :: cells[x]
  }

  /** No two live variables share a cell, and no live variable has a saved one. */
  ghost predicate Separated(locals: Cells, objects: Cells, saved: set<object>) {
    && Injective(locals) && Injective(objects)
    && CellSet(locals) !! CellSet(objects)
    && CellSet(locals) !! saved && CellSet(objects) !! saved
  }

  lemma ContentsKeys(cells: Cells)
    ensures Contents(cells).Keys == cells.Keys
    ensures forall x | x in cells :: Contents(cells)[x] == Variable(cells[x].ty, cells[x].value)
  {
  }

  lemma ContentsAdd(cells: Cells, name: string, info: VariableInfo)
    ensures Contents(cells[name := info]) == Contents(cells)[name := Variable(info.ty, info.value)]
  {
  }

  lemma ContentsRemove(cells: Cells, name: string)
    ensures Contents(cells - {name}) == Contents(cells) - {name}
    ensures CellSet(cells - {name}) <= CellSet(cells)
  {
  }

  lemma CellSetAdd(cells: Cells, name: string, info: VariableInfo)
    requires name !in cells
    ensures CellSet(cells[name := info]) == CellSet(cells) + {info}
  {
    assert forall x | x in cells :: cells[name := info][x] == cells[x];
    assert cells[name := info][name] == info;
  }

  lemma SeparatedAdd(locals: Cells, objects: Cells, saved: set<object>, name: string, info: VariableInfo)
    requires Separated(locals, objects, saved)
    requires info !in CellSet(locals) && info !in CellSet(objects) && info !in saved
    ensures name !in locals ==> Separated(locals[name := info], objects, saved)
    ensures name !in objects ==> Separated(locals, objects[name := info], saved)
  {
    if name !in locals { CellSetAdd(locals, name, info); InjectiveAdd(locals, name, info); }
    if name !in objects { CellSetAdd(objects, name, info); InjectiveAdd(objects, name, info); }
  }

  lemma InjectiveAdd(cells: Cells, name: string, info: VariableInfo)
    requires Injective(cells) && info !in CellSet(cells)
    ensures Injective(cells[name := info])
  {
    assert forall x | x in cells :: cells[x] in CellSet(cells);
  }

  lemma SeparatedRemove(locals: Cells, objects: Cells, saved: set<object>, name: string)
    requires Separated(locals, objects, saved)
    ensures Separated(locals - {name}, objects, saved) && Separated(locals, objects - {name}, saved)
  {
    ContentsRemove(locals, name);
    ContentsRemove(objects, name);
  }

  /** copy_environment_hash_table(): a new table of new cells with the same contents. */
  method CopyTable(cells: Cells, ghost others: set<object>) returns (copy: Cells)
    ensures Contents(copy) == Contents(cells) && Injective(copy)
    ensures fresh(CellSet(copy)) && CellSet(copy) !! others
  {
    copy := map[];
    var keys := cells.Keys;
    while keys != {}
      invariant keys <= cells.Keys && copy.Keys == cells.Keys - keys
      invariant forall x | x in copy :: fresh(copy[x])
      invariant forall x | x in copy :: copy[x].ty == cells[x].ty && copy[x].value == cells[x].value
      invariant Injective(copy)
      decreases |keys|
    {
      var key :| key in keys;
      var info := new VariableInfo(cells[key].ty, cells[key].value);
      copy := copy[key := info];
      keys := keys - {key};
    }
  }

  class Environment {
    var localVariables: Cells
    var objectVariables: Cells
    var localOriginal: Option<Cells>
    var objectOriginal: Option<Cells>

    function Live(scope: Scope): Cells
      reads this
    {
      if scope.Local? then localVariables else objectVariables
    }

    /** The cells of the saved tables, if any. */
    function Saved(scope: Scope): Cells
      reads this
    {
      var original := if scope.Local? then localOriginal else objectOriginal;
      if original.Some? then original.value else map[]
    }

    ghost function Repr(): set<object>
      reads this
    {
      {this} + CellSet(localVariables) + CellSet(objectVariables) + SavedCells()
    }

    ghost function SavedCells(): set<object>
      reads this
    {
      CellSet(Saved(Local)) + CellSet(Saved(Object))
    }

    ghost predicate Valid()
      reads this
    {
      && Separated(localVariables, objectVariables, SavedCells())
      && localOriginal.Some? == objectOriginal.Some?
    }

    /** The variables as a value. */
    function AsEnv(): Env
      reads this, CellSet(localVariables), CellSet(objectVariables)
    {
      Env(Contents(localVariables), Contents(objectVariables))
    }

    /** The saved variables as a value. */
    function SavedEnv(): Env
      reads this, CellSet(Saved(Local)), CellSet(Saved(Object))
    {
      Env(Contents(Saved(Local)), Contents(Saved(Object)))
    }

    predicate HasResetPoint()
      reads this
    {
      localOriginal.Some?
    }

    constructor ()
      ensures Valid() && fresh(Repr()) && AsEnv() == Env(map[], map[]) && !HasResetPoint()
    {
      localVariables, objectVariables := map[], map[];
      localOriginal, objectOriginal := None, None;
    }

    /** dfsm_environment_set_variable_type(): declare a new variable. */
    method SetVariableType(scope: Scope, name: string, ty: Ty) returns (fault: Option<Fault>)
      requires Valid()
      modifies this
      ensures Valid() && (forall x | x in Repr() :: x in old(Repr()) || fresh(x))
      ensures match DeclareVariable(old(AsEnv()), scope, name, ty)
        case Ok(env) => fault.None? && AsEnv() == env
        case Fail(f) => fault == Some(f) && AsEnv() == old(AsEnv())
      ensures HasResetPoint() == old(HasResetPoint()) && SavedEnv() == old(SavedEnv())
    {
      hide CellSet, Contents, Separated, Injective;
      ContentsKeys(Live(scope));
      if name in Live(scope) {
        return Some(BadVariable);
      }
      var info := NewCell(ty, None, Repr());
      ContentsAdd(Live(scope), name, info);
      CellSetAdd(Live(scope), name, info);
      SeparatedAdd(localVariables, objectVariables, SavedCells(), name, info);
      if scope.Local? {
        localVariables := localVariables[name := info];
      } else {
        objectVariables := objectVariables[name := info];
      }
      fault := None;
    }

    /** Overwrite the cell of a live variable in place. */
    method StoreValue(scope: Scope, name: string, v: Value)
      requires Valid() && name in Live(scope)
      modifies CellSet(Live(scope))
      ensures Valid() && SavedEnv() == old(SavedEnv())
      ensures Contents(Live(scope)) == old(Contents(Live(scope)))[name := Variable(old(Live(scope)[name].ty), Some(v))]
      ensures scope.Local? ==> Contents(objectVariables) == old(Contents(objectVariables))
      ensures scope.Object? ==> Contents(localVariables) == old(Contents(localVariables))
    {
      hide Separated;
      CellsApart(scope, name);
      Live(scope)[name].value := Some(v);
    }

    /** dfsm_environment_set_variable_value(): change a variable in place, keeping its declared type. */
    method SetVariableValue(scope: Scope, name: string, v: Value) returns (fault: Option<Fault>)
      requires Valid()
      modifies CellSet(Live(scope))
      ensures Valid()
      ensures match SetVariable(old(AsEnv()), scope, name, v)
        case Ok(env) => fault.None? && AsEnv() == env
        case Fail(f) => fault == Some(f) && AsEnv() == old(AsEnv())
      ensures SavedEnv() == old(SavedEnv())
    {
      hide Subtype, TypeOf, Separated, CellSet, Injective;
      ContentsKeys(Live(scope));
      if name !in Live(scope) {
        return Some(BadVariable);
      }
      if !Subtype(TypeOf(v), Live(scope)[name].ty) {
        return Some(TypeFault);
      }
      StoreValue(scope, name, v);
      fault := None;
    }

    /** The cell of a live variable belongs to no other table, live or saved. */
    lemma CellsApart(scope: Scope, name: string)
      requires Valid() && name in Live(scope)
      ensures Live(scope)[name] in CellSet(Live(scope)) && Injective(Live(scope))
      ensures Live(scope)[name] !in CellSet(if scope.Local? then objectVariables else localVariables)
      ensures Live(scope)[name] !in CellSet(Saved(Local)) && Live(scope)[name] !in CellSet(Saved(Object))
    {
      assert Live(scope)[name] in CellSet(Live(scope));
    }

    /** dfsm_environment_unset_variable_value(): forget a variable altogether. */
    method UnsetVariable(scope: Scope, name: string)
      requires Valid()
      modifies this
      ensures Valid() && Repr() <= old(Repr())
      ensures AsEnv() == RemoveVariable(old(AsEnv()), scope, name)
      ensures HasResetPoint() == old(HasResetPoint()) && SavedEnv() == old(SavedEnv())
    {
      hide CellSet, Contents, Separated, Injective;
      ContentsRemove(Live(scope), name);
      SeparatedRemove(localVariables, objectVariables, SavedCells(), name);
      if scope.Local? {
        localVariables := localVariables - {name};
      } else {
        objectVariables := objectVariables - {name};
      }
    }

    /** dfsm_environment_save_reset_point(), to be called once. */
    method SaveResetPoint()
      requires Valid() && !HasResetPoint()
      modifies this
      ensures Valid() && HasResetPoint() && (forall x | x in Repr() :: x in old(Repr()) || fresh(x))
      ensures SavedEnv() == old(AsEnv()) && AsEnv() == old(AsEnv())
    {
      hide CellSet, Contents, Injective;
      var locals := CopyTable(localVariables, Repr());
      var objects := CopyTable(objectVariables, Repr());
      localOriginal, objectOriginal := Some(locals), Some(objects);
    }

    /** dfsm_environment_reset(): replace the live cells by copies of the saved ones, as often as wanted. */
    method Reset()
      requires Valid() && HasResetPoint()
      modifies this
      ensures Valid() && HasResetPoint() && (forall x | x in Repr() :: x in old(Repr()) || fresh(x))
      ensures AsEnv() == old(SavedEnv()) && SavedEnv() == old(SavedEnv())
    {
      hide CellSet, Contents, Injective;
      localVariables := CopyTable(localOriginal.value, Repr());
      objectVariables := CopyTable(objectOriginal.value, Repr());
    }
  }
}
