/** Invariants of every run, proved by induction over the document: input
    is read only through prompts, one line per prompt and in order; a run
    aborts only on a prompt made after the last line; and the variable
    store only grows, with every new value a line the user typed. */
module Accounting {
  import opened Document
  import opened Interpreter

  /** The number of prompts in a trace, i.e. the `input()` calls made. */
  function Prompts(t: seq<Event>): (r: nat) {
    if t == [] then 0 else (if t[0].Prompt? then 1 else 0) + Prompts(t[1..])
  }

  lemma {:induction false} PromptsAppend(a: seq<Event>, b: seq<Event>)
    ensures Prompts(a + b) == Prompts(a) + Prompts(b)
  {
    if a == [] {
      assert a + b == b;
    } else {
      assert (a + b)[0] == a[0];
      assert (a + b)[1..] == a[1..] + b;
      PromptsAppend(a[1..], b);
    }
  }

  lemma {:induction false} PromptsOfListing(opts: seq<Node>, first: nat)
    ensures Prompts(Listing(opts, first)) == 0
  {
    if opts != [] {
      PromptsOfListing(opts[1..], first + 1);
    }
  }

  lemma PromptsOfHeader(n: Node)
    ensures Prompts(MenuHeader(n)) == 1
  {
    var banner := [Line(Banner(Attr(n, "title", DefaultTitle)))];
    var listing := Listing(Options(n.children), 1);
    PromptsAppend(banner + listing, [Prompt(ChoicePrompt)]);
    PromptsAppend(banner, listing);
    PromptsOfListing(Options(n.children), 1);
  }

  /** The outcome `r` of a run that started with `input` and `vars` is
      consistent with reading the input only through prompts. */
  ghost predicate Accounted(input: seq<string>, vars: Vars, r: Outcome) {
    match r
    case Done(rest, vars', t) =>
      && SuffixOf(rest, input)
      && Prompts(t) == |input| - |rest|
      && vars.Keys <= vars'.Keys
      && (forall k :: k in vars' ==> (k in vars && vars'[k] == vars[k]) || vars'[k] in input[..|input| - |rest|])
    case Aborted(t) =>
      && Prompts(t) == |input| + 1
      && t != [] && t[|t| - 1].Prompt?
  }

  /** Accounting carries over when a second part runs from where a first,
      finished part stopped. */
  lemma AccountedChain(input: seq<string>, vars: Vars, first: Outcome, second: Outcome)
    requires first.Done? && Accounted(input, vars, first)
    requires Accounted(first.rest, first.vars, second)
    ensures Accounted(input, vars, second.After(first.trace))
  {
    PromptsAppend(first.trace, second.trace);
    match second
    case Aborted(t) =>
      assert (first.trace + t)[|first.trace + t| - 1] == t[|t| - 1];
    case Done(rest, vars2, t) =>
      SuffixChain(input, first.rest, rest);
      ValuesChain(input, vars, first.rest, first.vars, rest, vars2);
  }

  lemma SuffixChain(input: seq<string>, mid: seq<string>, rest: seq<string>)
    requires SuffixOf(mid, input)
    requires SuffixOf(rest, mid)
    ensures SuffixOf(rest, input)
  {
  }

  lemma ValuesChain(input: seq<string>, vars: Vars, mid: seq<string>, midVars: Vars, rest: seq<string>, outVars: Vars)
    requires SuffixOf(mid, input)
    requires |rest| <= |mid|
    requires forall k :: k in midVars ==> (k in vars && midVars[k] == vars[k]) || midVars[k] in input[..|input| - |mid|]
    requires forall k :: k in outVars ==> (k in midVars && outVars[k] == midVars[k]) || outVars[k] in mid[..|mid| - |rest|]
    ensures forall k :: k in outVars ==> (k in vars && outVars[k] == vars[k]) || outVars[k] in input[..|input| - |rest|]
  {
    var consumed := |input| - |mid|;
    var seen := input[..|input| - |rest|];
    assert input[..consumed] == seen[..consumed];
    assert mid[..|mid| - |rest|] == seen[consumed..];
    forall k | k in outVars
      ensures (k in vars && outVars[k] == vars[k]) || outVars[k] in seen
    {
      if k in midVars && outVars[k] == midVars[k] {
        if !(k in vars && midVars[k] == vars[k]) {
          assert midVars[k] in seen[..consumed];
        }
      } else {
        assert outVars[k] in seen[consumed..];
      }
    }
  }

  lemma {:induction false} ExecAccounted(n: Node, input: seq<string>, vars: Vars)
    ensures Accounted(input, vars, Exec(n, input, vars))
    decreases n, 1
  {
    if n.tag == "app" {
      ExecSeqAccounted(n.children, input, vars);
    } else if n.tag == "menu" {
      ExecMenuAccounted(n, input, vars);
    } else if n.tag == "input" {
      InputAccounted(n, input, vars);
    } else if n.tag == "text" {
      LeafAccounted(input, vars, [Line(TextContent(n.text))]);
    } else if n.tag == "action" {
      LeafAccounted(input, vars, ActionEvents(n));
    } else if n.tag == "python" {
      LeafAccounted(input, vars, PythonEvents(n, vars));
    } else {
      LeafAccounted(input, vars, []);
    }
  }

  lemma {:induction false} PromptsNone(t: seq<Event>)
    requires forall i :: 0 <= i < |t| ==> !t[i].Prompt?
    ensures Prompts(t) == 0
  {
    if t != [] {
      PromptsNone(t[1..]);
    }
  }

  /** A node that shows no prompt reads nothing and keeps the variables. */
  lemma LeafAccounted(input: seq<string>, vars: Vars, t: seq<Event>)
    requires forall i :: 0 <= i < |t| ==> !t[i].Prompt?
    ensures Accounted(input, vars, Done(input, vars, t))
  {
    PromptsNone(t);
    assert input[|input| - |input|..] == input;
  }

  lemma InputAccounted(n: Node, input: seq<string>, vars: Vars)
    requires n.tag == "input"
    ensures Accounted(input, vars, ExecInput(n, input, vars))
  {
    if input != [] {
      assert input[1..] == input[|input| - |input[1..]|..];
      assert input[..1] == [input[0]];
    }
  }

  lemma {:induction false} ExecMenuAccounted(n: Node, input: seq<string>, vars: Vars)
    requires n.tag == "menu"
    ensures Accounted(input, vars, ExecMenu(n, input, vars))
    decreases n, 0
  {
    var opts := Options(n.children);
    var h := MenuHeader(n);
    PromptsOfHeader(n);
    if input != [] {
      assert input[1..] == input[|input| - |input[1..]|..];
      match Select(|opts|, input[0])
      case None =>
        PromptsAppend(h, [Line(InvalidSelection)]);
      case Some(i) =>
        assert opts[i] in n.children;
        ExecSeqAccounted(opts[i].children, input[1..], vars);
        AccountedChain(input, vars, Done(input[1..], vars, h), ExecSeq(opts[i].children, input[1..], vars));
    }
  }

  lemma {:induction false} ExecSeqAccounted(ns: seq<Node>, input: seq<string>, vars: Vars)
    ensures Accounted(input, vars, ExecSeq(ns, input, vars))
    decreases ns
  {
    if ns == [] {
      assert input[|input| - |input|..] == input;
    } else {
      var first := Exec(ns[0], input, vars);
      ExecAccounted(ns[0], input, vars);
      if first.Done? {
        ExecSeqAccounted(ns[1..], first.rest, first.vars);
        AccountedChain(input, vars, first, ExecSeq(ns[1..], first.rest, first.vars));
      }
    }
  }

  /** A finished run of the whole document consumed a prefix of the input,
      one line per prompt it showed; the variables it leaves are all lines
      from that prefix. */
  lemma RunConsumesPrefix(root: Node, input: seq<string>)
    ensures var r := Run(root, input);
      r.Done? ==>
        && Prompts(r.trace) <= |input|
        && r.rest == input[Prompts(r.trace)..]
        && (forall k :: k in r.vars ==> r.vars[k] in input[..Prompts(r.trace)])
  {
    ExecAccounted(root, input, map[]);
  }

  /** A run aborts only after it has shown one prompt more than there were
      lines, and the last thing it showed is that prompt. */
  lemma RunAbortsOnlyWhenInputExhausted(root: Node, input: seq<string>)
    ensures var r := Run(root, input);
      r.Aborted? ==> Prompts(r.trace) == |input| + 1 && r.trace[|r.trace| - 1].Prompt?
  {
    ExecAccounted(root, input, map[]);
  }

  /** No run removes a variable, and every variable it sets holds a line
      the user typed during that run. */
  lemma VariablesOnlyGrow(n: Node, input: seq<string>, vars: Vars)
    ensures var r := Exec(n, input, vars);
      r.Done? ==> vars.Keys <= r.vars.Keys
    ensures var r := Exec(n, input, vars);
      r.Done? ==> forall k :: k in r.vars ==>
        (k in vars && r.vars[k] == vars[k]) || r.vars[k] in input[..|input| - |r.rest|]
  {
    ExecAccounted(n, input, vars);
  }
}
