/** How runs of siblings compose: the `for child in node` loops of
    `_handle_node` and `_handle_menu` thread input and variables from one
    child to the next and concatenate what the children emit. */
module Sequencing {
  import opened Document
  import opened Interpreter

  /** Running `ns` after an earlier part that ended with `prior`. */
  function Continue(prior: Outcome, ns: seq<Node>): (r: Outcome) {
    match prior
    case Aborted(t) => Aborted(t)
    case Done(rest, vars, t) => ExecSeq(ns, rest, vars).After(t)
  }

  lemma AfterAfter(r: Outcome, t1: seq<Event>, t2: seq<Event>)
    ensures r.After(t2).After(t1) == r.After(t1 + t2)
  {
    match r
    case Done(rest, vars, t) => assert t1 + (t2 + t) == (t1 + t2) + t;
    case Aborted(t) => assert t1 + (t2 + t) == (t1 + t2) + t;
  }

  lemma ContinueAfter(r: Outcome, t: seq<Event>, ns: seq<Node>)
    ensures Continue(r.After(t), ns) == Continue(r, ns).After(t)
  {
    if r.Done? {
      AfterAfter(ExecSeq(ns, r.rest, r.vars), t, r.trace);
    }
  }

  /** Running `a + b` is running `a` and then, unless it aborted, running
      `b` from where `a` stopped. */
  lemma {:induction false} ExecSeqAppend(a: seq<Node>, b: seq<Node>, input: seq<string>, vars: Vars)
    ensures ExecSeq(a + b, input, vars) == Continue(ExecSeq(a, input, vars), b)
    decreases a
  {
    if a == [] {
      assert a + b == b;
      assert ExecSeq(b, input, vars).After([]) == ExecSeq(b, input, vars) by {
        var r := ExecSeq(b, input, vars);
        match r
        case Done(_, _, t) => assert [] + t == t;
        case Aborted(t) => assert [] + t == t;
      }
    } else {
      assert (a + b)[0] == a[0];
      assert (a + b)[1..] == a[1..] + b;
      match Exec(a[0], input, vars)
      case Aborted(t) =>
      case Done(rest, vars', t) =>
        ExecSeqAppend(a[1..], b, rest, vars');
        ContinueAfter(ExecSeq(a[1..], rest, vars'), t, b);
    }
  }

  /** An `app` node runs as the run of any prefix of its children continued
      with the remaining children: the children execute one after another
      in document order and nothing else happens. */
  lemma AppThreadsChildren(n: Node, input: seq<string>, vars: Vars, i: nat)
    requires n.tag == "app" && i <= |n.children|
    ensures Exec(n, input, vars) == Continue(ExecSeq(n.children[..i], input, vars), n.children[i..])
  {
    assert n.children == n.children[..i] + n.children[i..];
    ExecSeqAppend(n.children[..i], n.children[i..], input, vars);
  }

  /** When two runs of siblings both finish, running them back to back
      finishes with the second one's input and variables, and the trace is
      the first trace followed by the second. */
  lemma ExecSeqConcatTraces(a: seq<Node>, b: seq<Node>, input: seq<string>, vars: Vars,
                            mid: seq<string>, midVars: Vars, t1: seq<Event>,
                            rest: seq<string>, outVars: Vars, t2: seq<Event>)
    requires ExecSeq(a, input, vars) == Done(mid, midVars, t1)
    requires ExecSeq(b, mid, midVars) == Done(rest, outVars, t2)
    ensures ExecSeq(a + b, input, vars) == Done(rest, outVars, t1 + t2)
  {
    ExecSeqAppend(a, b, input, vars);
  }

  /** An element whose tag the dispatcher does not know, wherever it stands
      among its siblings, changes nothing about the run. */
  lemma UnknownSiblingSkipped(a: seq<Node>, u: Node, b: seq<Node>, input: seq<string>, vars: Vars)
    requires !KnownTag(u.tag)
    ensures ExecSeq(a + [u] + b, input, vars) == ExecSeq(a + b, input, vars)
  {
    ExecSeqAppend(a + [u], b, input, vars);
    ExecSeqAppend(a, [u], input, vars);
    ExecSeqAppend(a, b, input, vars);
    var r := ExecSeq(a, input, vars);
    if r.Done? {
      assert ([u] + b)[1..] == b;
      assert ExecSeq([u], r.rest, r.vars) == Done(r.rest, r.vars, []) by {
        assert [u][1..] == [];
      }
      assert ExecSeq(b, r.rest, r.vars).After([]) == ExecSeq(b, r.rest, r.vars) by {
        match ExecSeq(b, r.rest, r.vars)
        case Done(_, _, t) => assert [] + t == t;
        case Aborted(t) => assert [] + t == t;
      }
      assert r.trace + [] == r.trace;
    }
  }
}
