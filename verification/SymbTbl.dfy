/** The symbol table's objects (hzcc/ast/SymbTbl.cc): each scope holds its own
    tables and a link to its parent, and looks a name up by asking upwards. */
module SymbTbl {
  import opened Ast
  import opened ScopeSpec

  class SymbTbl {
    const parent: SymbTbl?
    /** The parent, its parent, and so on to the root. */
    ghost const above: seq<SymbTbl>
    var vars: map<string, Variable>
    var types: map<string, nat>
    var inner: seq<SymbTbl>

    /** Links are fixed when a scope is made, so a chain cannot become a cycle. */
    ghost predicate Linked()
      decreases |above|
    {
      if parent == null then above == [] else above == [parent] + parent.above && parent.Linked()
    }

    ghost function Tables(): Scope
      reads this
    {
      Scope(vars, types)
    }

    /** What this scope sees. */
    ghost function View(): Stack
      reads this, above
    {
      [Tables()] + seq(|above|, k requires 0 <= k < |above| reads above => above[k].Tables())
    }

    lemma NotAbove()
      requires Linked()
      ensures forall a <- above :: |a.above| < |above|
      ensures this !in above
      decreases |above|
    {
      if parent != null {
        parent.NotAbove();
      }
    }

    lemma ParentView()
      requires Linked()
      ensures View() != [] && View()[0] == Tables() && View()[1..] == if parent == null then [] else parent.View()
    {
    }

    constructor (parent: SymbTbl?)
      requires parent != null ==> parent.Linked()
      ensures this.parent == parent && Linked() && inner == []
      ensures View() == [EMPTY] + (if parent == null then [] else parent.View())
    {
      this.parent := parent;
      above := if parent == null then [] else [parent] + parent.above;
      vars, types, inner := map[], map[], [];
      new;
      ParentView();
      hide View;
      assert View() == [View()[0]] + View()[1..];
    }

    method EnterScope() returns (scope: SymbTbl)
      requires Linked()
      modifies this`inner
      ensures fresh(scope) && scope.Linked() && scope.parent == this
      ensures scope.View() == [EMPTY] + old(View()) && View() == old(View())
      ensures inner == old(inner) + [scope]
    {
      scope := new SymbTbl(this);
      inner := inner + [scope];
    }

    method HasVar(name: string, currentScope: bool) returns (found: bool)
      requires Linked()
      ensures found <==> if currentScope then name in vars else SeesVar(View(), name)
      decreases |above|
    {
      ParentView();
      OneOut(View(), name);
      hide View;
      if name in vars {
        return true;
      } else if !currentScope && parent != null {
        found := parent.HasVar(name, false);
      } else {
        return false;
      }
    }

    method HasType(name: string) returns (found: bool)
      requires Linked()
      ensures found <==> SeesType(View(), name)
      decreases |above|
    {
      ParentView();
      OneOut(View(), name);
      hide View;
      if name in types {
        return true;
      } else if parent != null {
        found := parent.HasType(name);
      } else {
        return false;
      }
    }

    /** The position of the innermost declaration; None where the source ends the process. */
    method VarDefPos(name: string) returns (pos: Option<Position>)
      requires Linked()
      ensures pos.Some? <==> SeesVar(View(), name)
      ensures forall i: nat :: BindsVar(View(), name, i) ==> pos == Some(View()[i].vars[name].pos)
      decreases |above|
    {
      ParentView();
      OneOut(View(), name);
      hide View;
      if name in vars {
        return Some(vars[name].pos);
      } else if parent != null {
        pos := parent.VarDefPos(name);
      } else {
        return None;
      }
    }

    /** The innermost type of the name; but qualifiers are passed on only when this scope itself defines it. */
    method GetType(name: string, qualifiers: seq<string>) returns (r: Option<(nat, seq<string>)>)
      requires Linked()
      ensures r.Some? <==> SeesType(View(), name)
      ensures forall i: nat :: BindsType(View(), name, i) ==>
                r == Some((View()[i].types[name], if i == 0 then qualifiers else []))
      ensures r.Some? ==> (r.value.1 == qualifiers <==> name in types || qualifiers == [])
      decreases |above|
    {
      ParentView();
      OneOut(View(), name);
      hide View;
      var known := HasType(name);
      if !known {
        return None;
      }
      if name in types {
        return Some((types[name], qualifiers));
      } else if parent != null {
        r := parent.GetType(name, []);
      } else {
        return None;
      }
    }

    /** A name this scope already declares keeps its first entry. */
    method AddVar(pos: Position, typeName: string, name: string)
      requires Linked()
      modifies this`vars
      ensures name in vars && vars[name] == if name in old(vars) then old(vars)[name] else Variable(pos, typeName)
      ensures forall x :: x != name ==> (x in vars <==> x in old(vars)) && (x in vars ==> vars[x] == old(vars)[x])
      ensures SeesVar(View(), name) && BindsVar(View(), name, 0)
      ensures View() == [WithVar(old(View()[0]), name, Variable(pos, typeName))] + old(View()[1..])
    {
      NotAbove();
      if name !in vars {
        vars := vars[name := Variable(pos, typeName)];
      }
      assert View()[1..] == old(View()[1..]) && View()[0] == Tables();
    }

    /** False where the source ends the process: the name is already visible, here or further out. */
    method AddStructType(name: string, definition: nat) returns (ok: bool)
      requires Linked()
      modifies this`types
      ensures ok <==> !old(SeesType(View(), "struct " + name))
      ensures ok ==> "struct " + name in types && types["struct " + name] == definition
      ensures forall x :: x != "struct " + name || !ok ==>
                (x in types <==> x in old(types)) && (x in types ==> types[x] == old(types)[x])
      ensures SeesType(View(), "struct " + name)
      ensures View() == if ok then [WithType(old(View()[0]), "struct " + name, definition)] + old(View()[1..]) else old(View())
    {
      NotAbove();
      ParentView();
      OneOut(View(), "struct " + name);
      var known := HasType("struct " + name);
      if known {
        return false;
      }
      types := types["struct " + name := definition];
      ok := true;
      assert View()[1..] == old(View()[1..]) && View()[0] == Tables() && "struct " + name in View()[0].types;
    }
  }
}
