/** `_handle_menu`: the listing it prints, the single line it reads, and
    which option's children run for a given choice. */
module MenuProperties {
  import opened Wrappers
  import opened PyText
  import opened Document
  import opened Interpreter
  import opened Sequencing

  /** Whatever happens after, a menu's output starts with the banner for its
      title (default "Menu"), then one line "k. label" for each of its `option`
      children, k = 1..N in document order, with the default label "Option k",
      then the choice prompt. */
  lemma MenuListing(n: Node, input: seq<string>, vars: Vars)
    requires n.tag == "menu"
    ensures var r := Exec(n, input, vars);
      var opts := Options(n.children);
      && |r.trace| >= |opts| + 2
      && r.trace[0] == Line("\n=== " + Attr(n, "title", "Menu") + " ===")
      && (forall k :: 0 <= k < |opts| ==>
            r.trace[k + 1] == Line(NatToString(k + 1) + ". " + Attr(opts[k], "label", "Option " + NatToString(k + 1))))
      && r.trace[|opts| + 1] == Prompt("Choose an option: ")
  {
    var opts := Options(n.children);
    var h := MenuHeader(n);
    var r := Exec(n, input, vars);
    HeaderShape(n);
    assert r.trace[0] == h[0];
    forall k | 0 <= k < |opts|
      ensures r.trace[k + 1] == Line(OptionLine(opts[k], 1 + k))
    {
      assert r.trace[k + 1] == h[k + 1];
    }
    assert r.trace[|opts| + 1] == h[|opts| + 1];
  }

  lemma HeaderShape(n: Node)
    ensures var h := MenuHeader(n);
      var opts := Options(n.children);
      && |h| == |opts| + 2
      && h[0] == Line(Banner(Attr(n, "title", DefaultTitle)))
      && (forall k :: 0 <= k < |opts| ==> h[k + 1] == Line(OptionLine(opts[k], 1 + k)))
      && h[|opts| + 1] == Prompt(ChoicePrompt)
  {
    var opts := Options(n.children);
    var listing := Listing(opts, 1);
    var h := MenuHeader(n);
    forall k | 0 <= k < |opts|
      ensures h[k + 1] == Line(OptionLine(opts[k], 1 + k))
    {
      assert h[k + 1] == listing[k];
    }
  }

  /** A menu reads exactly one line, never re-prompts, and then either runs
      only the children of the chosen option, in order, starting from the
      next line, or prints "Invalid selection." and stops. */
  lemma MenuSelection(n: Node, choice: string, rest: seq<string>, vars: Vars)
    requires n.tag == "menu"
    ensures var opts := Options(n.children);
      var r := Exec(n, [choice] + rest, vars);
      && (Select(|opts|, choice).None? ==>
            r == Done(rest, vars, MenuHeader(n) + [Line("Invalid selection.")]))
      && (Select(|opts|, choice).Some? ==>
            r == Continue(Done(rest, vars, MenuHeader(n)), opts[Select(|opts|, choice).value].children))
  {
    assert ([choice] + rest)[1..] == rest;
  }

  /** With no line left the menu prints its listing and prompt, and the run
      ends. */
  lemma MenuWithoutLineAborts(n: Node, vars: Vars)
    requires n.tag == "menu"
    ensures Exec(n, [], vars) == Aborted(MenuHeader(n))
  {
  }

  /** Children that are not `option` elements play no part in a menu: two
      menus with the same attributes and the same options behave alike,
      whatever else they contain. */
  lemma MenuDependsOnlyOnOptions(m1: Node, m2: Node, input: seq<string>, vars: Vars)
    requires m1.tag == "menu" && m2.tag == "menu" && m1.attrs == m2.attrs
    requires Options(m1.children) == Options(m2.children)
    ensures Exec(m1, input, vars) == Exec(m2, input, vars)
  {
  }

  /** In particular, dropping a non-`option` child from a menu changes
      nothing. */
  lemma NonOptionChildIgnored(n: Node, a: seq<Node>, c: Node, b: seq<Node>, input: seq<string>, vars: Vars)
    requires n.tag == "menu" && n.children == a + [c] + b && c.tag != "option"
    ensures Exec(n, input, vars) == Exec(n.(children := a + b), input, vars)
  {
    OptionsSkipNonOption(a, c, b);
    MenuDependsOnlyOnOptions(n, n.(children := a + b), input, vars);
  }

  /** A choice selects an option exactly when it parses as an integer c with
      -N <= c - 1 < N; the option is then c - 1 taken modulo N, so that
      negative numbers count back from the last option. */
  lemma SelectMeaning(count: nat, choice: string)
    ensures Select(count, choice).Some? <==>
      ParseInt(choice).Some? && -(count as int) <= ParseInt(choice).value - 1 < count
    ensures Select(count, choice).Some? ==>
      Select(count, choice).value == (ParseInt(choice).value - 1) % count
  {
    match ParseInt(choice)
    case None =>
    case Some(c) =>
      if -(count as int) <= c - 1 < count {
        IndexModulus(c - 1, count);
      }
  }

  lemma IndexModulus(k: int, n: int)
    requires -n <= k < n
    ensures k % n == if k < 0 then k + n else k
  {
    if k < 0 {
      assert k == (-1) * n + (k + n);
    } else {
      assert k == 0 * n + k;
    }
  }

  /** Typing the number shown in front of an option, with or without
      surrounding whitespace, selects that option. */
  lemma ShownNumberSelects(count: nat, k: nat, a: string, b: string)
    requires 1 <= k <= count && AllBlank(a, IntBlanks) && AllBlank(b, IntBlanks)
    ensures Select(count, a + NatToString(k) + b) == Some(k - 1)
  {
    assert IntToString(k) == NatToString(k);
    ParseIntOfString(a, k, b);
  }

  /** Zero and negative choices pass Python's list indexing: c in (-N, 0]
      selects option N + c, so "0" selects the last option. */
  lemma NonPositiveCountsFromEnd(count: nat, c: int)
    requires -(count as int) < c <= 0
    ensures Select(count, IntToString(c)) == Some(count + c - 1)
  {
    var s := IntToString(c);
    assert s == [] + s + [];
    ParseIntOfString([], c, []);
    SelectOfParsed(count, s, c);
  }

  /** The choice "0" selects the last option of a non-empty menu. */
  lemma ZeroSelectsLast(count: nat)
    requires count > 0
    ensures Select(count, "0") == Some(count - 1)
  {
    assert IntToString(0) == "0";
    NonPositiveCountsFromEnd(count, 0);
  }

  /** A choice containing a letter or any other character that cannot be
      part of a number is rejected, as is every choice in a menu without
      options. */
  lemma InvalidChoices(count: nat, choice: string)
    ensures (exists i :: 0 <= i < |choice| && Foreign(choice[i])) ==> Select(count, choice) == None
    ensures Select(0, choice) == None
  {
    if i :| 0 <= i < |choice| && Foreign(choice[i]) {
      ParseIntForeign(choice, i);
    }
  }

  /** A menu with options A, B, C: "2" runs only B's children; "abc" and "9"
      print "Invalid selection." and run none. */
  lemma ThreeOptionMenu(n: Node, rest: seq<string>, vars: Vars)
    requires n.tag == "menu" && |Options(n.children)| == 3
    ensures Exec(n, ["2"] + rest, vars) == Continue(Done(rest, vars, MenuHeader(n)), Options(n.children)[1].children)
    ensures Exec(n, ["abc"] + rest, vars) == Done(rest, vars, MenuHeader(n) + [Line("Invalid selection.")])
    ensures Exec(n, ["9"] + rest, vars) == Done(rest, vars, MenuHeader(n) + [Line("Invalid selection.")])
  {
    ThreeOptionChoices();
    MenuSelection(n, "2", rest, vars);
    MenuSelection(n, "abc", rest, vars);
    MenuSelection(n, "9", rest, vars);
  }

  lemma ThreeOptionChoices()
    ensures Select(3, "2") == Some(1)
    ensures Select(3, "abc") == None
    ensures Select(3, "9") == None
  {
    assert "2" == [] + NatToString(2) + [];
    ShownNumberSelects(3, 2, [], []);
    assert Foreign("abc"[0]);
    InvalidChoices(3, "abc");
    assert "9" == [] + NatToString(9) + [];
    assert IntToString(9) == NatToString(9);
    ParseIntOfString([], 9, []);
  }
}
