/**
 The search for a trigger date in a SATISFY expression (src/dorem.c), through the
 bodies of user functions that may call each other in circles.
 */
module TrigSearch {

  type Name = string

  /** What matters of a node: trigdate() and its like, a call of a user function, or anything else. */
  datatype Kind = TrigDate | Call(name: Name) | Other

  /** Nodes linked by first child and next sibling. */
  datatype Tree = Nil | Node(kind: Kind, child: Tree, sibling: Tree)

  class UserFunc {
    const body: Tree
    var recurseFlag: bool

    constructor (body: Tree)
      ensures this.body == body && !recurseFlag
    {
      this.body, recurseFlag := body, false;
    }
  }

  type Bodies = map<Name, Tree>

  // ----- Reachability -----

  predicate Contains(t: Tree) {
    t.Node? && (t.kind.TrigDate? || Contains(t.child) || Contains(t.sibling))
  }

  predicate Calls(t: Tree, f: Name) {
    t.Node? && (t.kind == Call(f) || Calls(t.child, f) || Calls(t.sibling, f))
  }

  /** Calling the functions of `path` one from the other leads to a trigger date, and avoids `flagged`. */
  ghost predicate Leads(bodies: Bodies, t: Tree, path: seq<Name>, flagged: set<Name>)
    decreases |path|
  {
    if path == [] then Contains(t)
    else
      && Calls(t, path[0]) && path[0] in bodies && path[0] !in flagged
      && Leads(bodies, bodies[path[0]], path[1..], flagged)
  }

  ghost predicate Mentions(bodies: Bodies, t: Tree, flagged: set<Name>) {
    exists path :: Leads(bodies, t, path, flagged)
  }

  lemma {:induction false} LeadsAvoiding(bodies: Bodies, t: Tree, path: seq<Name>, flagged: set<Name>, f: Name)
    requires Leads(bodies, t, path, flagged) && f !in path
    ensures Leads(bodies, t, path, flagged + {f})
    decreases |path|
  {
    if path != [] {
      LeadsAvoiding(bodies, bodies[path[0]], path[1..], flagged, f);
    }
  }

  lemma {:induction false} LeadsMore(bodies: Bodies, t: Tree, path: seq<Name>, flagged: set<Name>, f: Name)
    requires Leads(bodies, t, path, flagged + {f})
    ensures Leads(bodies, t, path, flagged)
    decreases |path|
  {
    if path != [] {
      LeadsMore(bodies, bodies[path[0]], path[1..], flagged, f);
    }
  }

  /** Behind the i-th function of a path, the rest of the path starts from its body. */
  lemma {:induction false} LeadsFrom(bodies: Bodies, t: Tree, path: seq<Name>, flagged: set<Name>, i: nat)
    requires Leads(bodies, t, path, flagged) && i < |path|
    ensures path[i] in bodies && Leads(bodies, bodies[path[i]], path[i + 1..], flagged)
    decreases |path|
  {
    if i > 0 {
      LeadsFrom(bodies, bodies[path[0]], path[1..], flagged, i - 1);
      assert path[1..][i..] == path[i + 1..];
    }
  }

  /** A path from a function need not come back to it. */
  lemma {:induction false} Shortcut(bodies: Bodies, f: Name, path: seq<Name>, flagged: set<Name>)
    requires f in bodies && Leads(bodies, bodies[f], path, flagged)
    ensures Mentions(bodies, bodies[f], flagged + {f})
    decreases |path|
  {
    if f !in path {
      LeadsAvoiding(bodies, bodies[f], path, flagged, f);
    } else {
      var i :| 0 <= i < |path| && path[i] == f;
      LeadsFrom(bodies, bodies[f], path, flagged, i);
      Shortcut(bodies, f, path[i + 1..], flagged);
    }
  }

  /** Marking a function while its body is searched loses nothing. */
  lemma FlagLosesNothing(bodies: Bodies, f: Name, flagged: set<Name>)
    requires f in bodies
    ensures Mentions(bodies, bodies[f], flagged) <==> Mentions(bodies, bodies[f], flagged + {f})
  {
    if Mentions(bodies, bodies[f], flagged) {
      var path :| Leads(bodies, bodies[f], path, flagged);
      Shortcut(bodies, f, path, flagged);
    }
    if Mentions(bodies, bodies[f], flagged + {f}) {
      var path :| Leads(bodies, bodies[f], path, flagged + {f});
      LeadsMore(bodies, bodies[f], path, flagged, f);
    }
  }

  /** What a node, its children and its later siblings mention. */
  lemma MentionsNode(bodies: Bodies, t: Tree, flagged: set<Name>)
    requires t.Node?
    ensures Mentions(bodies, t, flagged) <==>
              t.kind.TrigDate?
              || (t.kind.Call? && t.kind.name in bodies && t.kind.name !in flagged &&
                    Mentions(bodies, bodies[t.kind.name], flagged))
              || Mentions(bodies, t.child, flagged) || Mentions(bodies, t.sibling, flagged)
  {
    if Mentions(bodies, t, flagged) {
      var path :| Leads(bodies, t, path, flagged);
      if path == [] {
        assert t.kind.TrigDate? || Leads(bodies, t.child, path, flagged) || Leads(bodies, t.sibling, path, flagged);
      } else if t.kind == Call(path[0]) {
        assert Leads(bodies, bodies[path[0]], path[1..], flagged);
      } else {
        assert Leads(bodies, t.child, path, flagged) || Leads(bodies, t.sibling, path, flagged);
      }
    }
    if t.kind.TrigDate? {
      assert Leads(bodies, t, [], flagged);
    }
    if t.kind.Call? && t.kind.name in bodies && t.kind.name !in flagged &&
        Mentions(bodies, bodies[t.kind.name], flagged) {
      var path :| Leads(bodies, bodies[t.kind.name], path, flagged);
      assert ([t.kind.name] + path)[1..] == path;
      assert Leads(bodies, t, [t.kind.name] + path, flagged);
    }
    if Mentions(bodies, t.child, flagged) {
      var path :| Leads(bodies, t.child, path, flagged);
      assert Leads(bodies, t, path, flagged);
    }
    if Mentions(bodies, t.sibling, flagged) {
      var path :| Leads(bodies, t.sibling, path, flagged);
      assert Leads(bodies, t, path, flagged);
    }
  }

  lemma NilMentionsNothing(bodies: Bodies, flagged: set<Name>)
    ensures !Mentions(bodies, Nil, flagged)
  {
  }

  // ----- The search -----

  class Search {
    const funcs: map<Name, UserFunc>
    const functions: set<UserFunc>
    var mentioned: bool

    ghost predicate Valid() {
      && (forall f | f in funcs :: funcs[f] in functions)
      && forall f, g | f in funcs && g in funcs && funcs[f] == funcs[g] :: f == g
    }

    ghost function TheBodies(): Bodies {
      map f | f in funcs :: funcs[f].body
    }

    ghost function Flagged(): set<Name>
      requires Valid()
      reads functions
    {
      set f | f in funcs && funcs[f].recurseFlag
    }

    constructor (funcs: map<Name, UserFunc>, functions: set<UserFunc>)
      ensures this.funcs == funcs && this.functions == functions && !mentioned
    {
      this.funcs, this.functions, mentioned := funcs, functions, false;
    }

    /** Sets `mentioned` if a trigger date can be reached from the node, its children and later siblings. */
    method Aux(node: Tree)
      requires Valid()
      modifies this`mentioned, functions
      ensures Flagged() == old(Flagged())
      ensures mentioned == (old(mentioned) || Mentions(TheBodies(), node, old(Flagged())))
      decreases funcs.Keys - Flagged(), node
    {
      hide Mentions;
      ghost var bodies, flagged := TheBodies(), Flagged();
      NilMentionsNothing(bodies, flagged);
      if node.Nil? || mentioned {
        return;
      }
      MentionsNode(bodies, node, flagged);
      match node.kind {
        case TrigDate =>
          mentioned := true;
          return;
        case Call(name) =>
          if name in funcs && !funcs[name].recurseFlag {
            var f := funcs[name];
            assert bodies[name] == f.body && name !in flagged;
            FlagLosesNothing(bodies, name, flagged);
            f.recurseFlag := true;
            assert Flagged() == flagged + {name};
            assert name in funcs.Keys - flagged;
            Aux(f.body);
            f.recurseFlag := false;
            assert Flagged() == flagged;
            if mentioned {
              return;
            }
          }
        case Other =>
      }
      Aux(node.child);
      if mentioned {
        return;
      }
      var other := node.sibling;
      while other.Node?
        invariant Flagged() == flagged && !mentioned
        invariant Mentions(bodies, other, flagged) ==> Mentions(bodies, node.sibling, flagged)
        invariant other == node.sibling || !Mentions(bodies, node.sibling, flagged)
        invariant other == node.sibling || other < node
        decreases other
      {
        MentionsNode(bodies, other, flagged);
        Aux(other);
        if mentioned {
          return;
        }
        other := other.sibling;
      }
    }
  }
}
