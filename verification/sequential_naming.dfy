/**
 Naming a list of tools one after the other, where the name each tool gets
 depends on the names handed out before it. The naming step is a parameter:
 given a tool's name and the names already taken it settles on a new name,
 or on None when it gives up.
 */
module SequentialNaming {
  import opened Wrappers

  type Step = (string, set<string>) -> Option<string>

  function NamesOf<T>(tools: seq<(string, T)>): (names: seq<string>)
    ensures |names| == |tools|
    ensures forall i :: 0 <= i < |tools| ==> names[i] == tools[i].0
  {
    seq(|tools|, i requires 0 <= i < |tools| => tools[i].0)
  }

  predicate Distinct(names: seq<string>) {
    forall i, j :: 0 <= i < j < |names| ==> names[i] != names[j]
  }

  /** The names of the first `i` emitted tools. */
  function Emitted<T>(out: seq<(string, T)>, i: nat): set<string>
    requires i <= |out|
  {
    set j | 0 <= j < i :: out[j].0
  }

  /** `out` names every tool as `settle` does, one after the other: tool i
      gets what `settle` gives for its name, given the names already in
      `used` and those emitted before it. */
  predicate NamedBy<T>(settle: Step, tools: seq<(string, T)>, used: set<string>, out: seq<(string, T)>) {
    && |out| == |tools|
    && forall i :: 0 <= i < |tools| ==> settle(tools[i].0, used + Emitted(out, i)) == Some(out[i].0)
  }

  /** Tool k is the first for which `settle` gives up, after the tools before
      it were named `out`. */
  predicate GivesUpAt<T>(settle: Step, tools: seq<(string, T)>, used: set<string>, k: nat, out: seq<(string, T)>) {
    && k < |tools|
    && NamedBy(settle, tools[..k], used, out)
    && settle(tools[k].0, used + Emitted(out, k)).None?
  }

  /** A step that only ever settles on a name not yet taken. */
  ghost predicate Fresh(settle: Step) {
    forall name, taken :: settle(name, taken).Some? ==> settle(name, taken).value !in taken
  }

  /** The loop over the tools: each tool is renamed to what `settle` gives
      for it, and the new name is taken from then on. None when `settle`
      gives up on some tool. */
  function RenameAll<T>(settle: Step, tools: seq<(string, T)>, used: set<string>): (r: Option<seq<(string, T)>>)
    ensures r.Some? ==> NamedBy(settle, tools, used, r.value)
    ensures r.Some? ==> forall i :: 0 <= i < |tools| ==> r.value[i].1 == tools[i].1
    decreases |tools|
  {
    if |tools| == 0 then Some([])
    else
      match settle(tools[0].0, used)
      case None => None
      case Some(name) =>
        match RenameAll(settle, tools[1..], used + {name})
        case None => None
        case Some(rest) =>
          NamedCons(settle, tools, used, name, rest);
          Some([(name, tools[0].1)] + rest)
  }

  lemma EmittedCons<T>(head: (string, T), rest: seq<(string, T)>, i: nat)
    requires 1 <= i <= |rest| + 1
    ensures Emitted([head] + rest, i) == {head.0} + Emitted(rest, i - 1)
  {
    var out := [head] + rest;
    forall x | x in Emitted(out, i)
      ensures x in {head.0} + Emitted(rest, i - 1)
    {
      var j :| 0 <= j < i && out[j].0 == x;
      if j > 0 {
        assert out[j] == rest[j - 1];
      }
    }
    forall x | x in Emitted(rest, i - 1)
      ensures x in Emitted(out, i)
    {
      var j :| 0 <= j < i - 1 && rest[j].0 == x;
      assert out[j + 1] == rest[j];
    }
    assert out[0] == head;
  }

  /** Naming the first tool and then the rest, with the first name added to
      `used`, names the whole list in order and keeps every tool's value. */
  lemma NamedCons<T>(settle: Step, tools: seq<(string, T)>, used: set<string>, name: string, rest: seq<(string, T)>)
    requires |tools| > 0 && settle(tools[0].0, used) == Some(name)
    requires NamedBy(settle, tools[1..], used + {name}, rest)
    requires forall i :: 0 <= i < |tools[1..]| ==> rest[i].1 == tools[1..][i].1
    ensures NamedBy(settle, tools, used, [(name, tools[0].1)] + rest)
    ensures forall i :: 0 <= i < |tools| ==> ([(name, tools[0].1)] + rest)[i].1 == tools[i].1
  {
    NamedBySlice(settle, tools, used, name, rest);
    var out := [(name, tools[0].1)] + rest;
    forall i | 0 < i < |tools|
      ensures out[i].1 == tools[i].1
    {
      assert tools[i] == tools[1..][i - 1];
      assert out[i] == rest[i - 1];
    }
  }

  /** A fresh step hands out pairwise distinct names, none of them in `used`. */
  lemma FreshNamesDistinct<T>(settle: Step, tools: seq<(string, T)>, used: set<string>, out: seq<(string, T)>)
    requires Fresh(settle) && NamedBy(settle, tools, used, out)
    ensures forall i :: 0 <= i < |out| ==> out[i].0 !in used
    ensures Distinct(NamesOf(out))
  {
    forall i | 0 <= i < |out|
      ensures out[i].0 !in used + Emitted(out, i)
    {
      assert settle(tools[i].0, used + Emitted(out, i)) == Some(out[i].0);
    }
    var names := NamesOf(out);
    forall i, j | 0 <= i < j < |names|
      ensures names[i] != names[j]
    {
      assert out[i].0 in Emitted(out, j);
    }
  }

  /** The loop gives up only when, for some tool, `settle` gives up given the
      names in `used` and those emitted before it. */
  lemma {:induction false} RenameAllNone<T>(settle: Step, tools: seq<(string, T)>, used: set<string>)
    ensures RenameAll(settle, tools, used).None? ==>
              exists k: nat, out: seq<(string, T)> :: GivesUpAt(settle, tools, used, k, out)
    decreases |tools|
  {
    if |tools| > 0 && RenameAll(settle, tools, used).None? {
      if settle(tools[0].0, used).None? {
        var none: seq<(string, T)> := [];
        assert used + Emitted(none, 0) == used;
        assert GivesUpAt(settle, tools, used, 0, none);
      } else {
        var name := settle(tools[0].0, used).value;
        RenameAllNone(settle, tools[1..], used + {name});
        var k: nat, out: seq<(string, T)> :| GivesUpAt(settle, tools[1..], used + {name}, k, out);
        GivesUpLater(settle, tools, used, name, k, out);
      }
    }
  }

  /** Giving up at tool k of the rest is giving up at tool k + 1 of the list. */
  lemma GivesUpLater<T>(settle: Step, tools: seq<(string, T)>, used: set<string>, name: string, k: nat, out: seq<(string, T)>)
    requires |tools| > 0 && settle(tools[0].0, used) == Some(name)
    requires GivesUpAt(settle, tools[1..], used + {name}, k, out)
    ensures GivesUpAt(settle, tools, used, k + 1, [(name, tools[0].1)] + out)
  {
    var front := tools[..k + 1];
    assert front[1..] == tools[1..][..k];
    NamedBySlice(settle, front, used, name, out);
    var out' := [(name, tools[0].1)] + out;
    EmittedCons((name, tools[0].1), out, k + 1);
    assert used + Emitted(out', k + 1) == used + {name} + Emitted(out, k);
    assert tools[k + 1] == tools[1..][k];
  }

  /** Naming the first tool and then the rest, with the first name added to
      `used`, names the whole list in order. */
  lemma NamedBySlice<T>(settle: Step, tools: seq<(string, T)>, used: set<string>, name: string, rest: seq<(string, T)>)
    requires |tools| > 0 && settle(tools[0].0, used) == Some(name)
    requires NamedBy(settle, tools[1..], used + {name}, rest)
    ensures NamedBy(settle, tools, used, [(name, tools[0].1)] + rest)
  {
    var out := [(name, tools[0].1)] + rest;
    forall i | 0 <= i < |tools|
      ensures settle(tools[i].0, used + Emitted(out, i)) == Some(out[i].0)
    {
      if i == 0 {
        assert used + Emitted(out, 0) == used;
      } else {
        assert tools[i] == tools[1..][i - 1];
        assert out[i] == rest[i - 1];
        EmittedCons((name, tools[0].1), rest, i);
        assert used + Emitted(out, i) == (used + {name}) + Emitted(rest, i - 1);
      }
    }
  }

  /** When every tool has a wanted name that `settle` gives whenever it is
      free, and the wanted names are distinct and not in `used`, the loop
      gives every tool exactly its wanted name. */
  lemma {:induction false} WantedNamesKept<T>(settle: Step, tools: seq<(string, T)>, used: set<string>, wanted: seq<string>)
    requires |wanted| == |tools| && Distinct(wanted)
    requires forall i :: 0 <= i < |tools| ==> wanted[i] !in used
    requires forall i, taken :: 0 <= i < |tools| && wanted[i] !in taken ==>
               settle(tools[i].0, taken) == Some(wanted[i])
    ensures RenameAll(settle, tools, used).Some?
    ensures NamesOf(RenameAll(settle, tools, used).value) == wanted
    decreases |tools|
  {
    if |tools| > 0 {
      var rest := tools[1..];
      forall i | 0 <= i < |rest|
        ensures wanted[1..][i] !in used + {wanted[0]}
      {
        assert wanted[i + 1] != wanted[0];
      }
      forall i, taken | 0 <= i < |rest| && wanted[1..][i] !in taken
        ensures settle(rest[i].0, taken) == Some(wanted[1..][i])
      {
        assert rest[i] == tools[i + 1];
      }
      assert settle(tools[0].0, used) == Some(wanted[0]);
      WantedNamesKept(settle, rest, used + {wanted[0]}, wanted[1..]);
      var tail := RenameAll(settle, rest, used + {wanted[0]}).value;
      var r := RenameAll(settle, tools, used).value;
      assert r == [(wanted[0], tools[0].1)] + tail;
      assert NamesOf(r) == [wanted[0]] + NamesOf(tail);
    }
  }
}
