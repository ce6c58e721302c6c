/**
 * The matching brackets kata (`isValidBrackets`): openers are pushed on a
 * stack, a closer must meet its own opener on top and pops it, every other
 * character is skipped, and the string is valid when the stack ends empty.
 */
module Brackets {
  import opened Wrappers

  predicate IsOpener(c: char) {
    c == '(' || c == '{' || c == '['
  }

  predicate IsCloser(c: char) {
    c == ')' || c == '}' || c == ']'
  }

  /** The bracket map: the opener each closer matches. */
  function OpenerOf(closer: char): (o: char)
    requires IsCloser(closer)
    ensures IsOpener(o)
  {
    if closer == ')' then '(' else if closer == '}' then '{' else '['
  }

  /** One character's effect on the stack; `None` when a closer finds no matching opener on top. */
  function Step(stack: seq<char>, c: char): Option<seq<char>> {
    if IsOpener(c) then Some(stack + [c])
    else if IsCloser(c) then
      if stack == [] || stack[|stack| - 1] != OpenerOf(c) then None
      else Some(stack[..|stack| - 1])
    else Some(stack)
  }

  /** The stack after reading `s` from `stack`, or `None` once a closer has failed. */
  function Run(stack: seq<char>, s: string): Option<seq<char>> {
    if s == [] then Some(stack)
    else match Run(stack, s[..|s| - 1])
      case None => None
      case Some(st) => Step(st, s[|s| - 1])
  }

  /** A string is balanced when reading it from an empty stack never fails and ends with an empty stack. */
  predicate Balanced(s: string) {
    Run([], s) == Some([])
  }

  /** `isValidBrackets`. */
  method IsValidBrackets(s: string) returns (valid: bool)
    ensures valid == Balanced(s)
  {
    var stack: seq<char> := [];
    for i := 0 to |s|
      invariant Run([], s[..i]) == Some(stack)
    {
      assert s[..i + 1][..i] == s[..i];
      var c := s[i];
      if IsOpener(c) {
        stack := stack + [c];
      } else if IsCloser(c) {
        if |stack| == 0 || stack[|stack| - 1] != OpenerOf(c) {
          RunFailureSticks([], s[..i + 1], s[i + 1..]);
          assert s[..i + 1] + s[i + 1..] == s;
          return false;
        }
        stack := stack[..|stack| - 1];
      }
    }
    assert s[..|s|] == s;
    valid := |stack| == 0;
  }

  /** Reading a concatenation is reading its parts one after the other. */
  lemma {:induction false} RunAppend(stack: seq<char>, a: string, b: string)
    ensures Run(stack, a + b) == match Run(stack, a) case None => None case Some(st) => Run(st, b)
    decreases |b|
  {
    if b == [] {
      assert a + b == a;
    } else {
      RunAppend(stack, a, b[..|b| - 1]);
      assert (a + b)[..|a + b| - 1] == a + b[..|b| - 1];
    }
  }

  /** Once a closer has failed, nothing read after it can recover. */
  lemma RunFailureSticks(stack: seq<char>, a: string, b: string)
    requires Run(stack, a) == None
    ensures Run(stack, a + b) == None
  {
    RunAppend(stack, a, b);
  }

  /** The stack only ever holds openers. */
  lemma {:induction false} RunKeepsOpeners(stack: seq<char>, s: string)
    requires forall i :: 0 <= i < |stack| ==> IsOpener(stack[i])
    ensures Run(stack, s).Some? ==> forall i :: 0 <= i < |Run(stack, s).value| ==> IsOpener(Run(stack, s).value[i])
    decreases |s|
  {
    if s != [] {
      RunKeepsOpeners(stack, s[..|s| - 1]);
    }
  }

  /** Openers already on the stack below are left untouched by a run that does not fail. */
  lemma {:induction false} RunOnDeeperStack(base: seq<char>, stack: seq<char>, s: string)
    requires Run(stack, s).Some?
    ensures Run(base + stack, s) == Some(base + Run(stack, s).value)
    decreases |s|
  {
    if s != [] {
      var init := s[..|s| - 1];
      RunOnDeeperStack(base, stack, init);
      var st := Run(stack, init).value;
      var c := s[|s| - 1];
      if IsOpener(c) {
        assert (base + st) + [c] == base + (st + [c]);
      } else if IsCloser(c) {
        assert (base + st)[..|base + st| - 1] == base + st[..|st| - 1];
      }
    }
  }

  /** A character that is not a bracket leaves the stack as it was. */
  lemma RunOther(stack: seq<char>, c: char)
    requires !IsOpener(c) && !IsCloser(c)
    ensures Run(stack, [c]) == Some(stack)
  {
    assert [c][..0] == [];
  }

  /** Characters other than the six brackets do not affect the verdict. */
  lemma IgnoresOthers(a: string, c: char, b: string)
    requires !IsOpener(c) && !IsCloser(c)
    ensures Balanced(a + [c] + b) == Balanced(a + b)
  {
    RunAppend([], a + [c], b);
    RunAppend([], a, [c]);
    RunAppend([], a, b);
    if Run([], a).Some? {
      RunOther(Run([], a).value, c);
    }
  }

  /** The empty string is balanced; a string that ends with openers still on the stack is not. */
  lemma EmptyAndLeftovers(s: string)
    ensures Balanced([])
    ensures Run([], s).Some? && Run([], s).value != [] ==> !Balanced(s)
  {
  }

  /** A closer that meets an empty stack or another opener on top condemns the string, whatever follows. */
  lemma MismatchIsFinal(a: string, c: char, b: string)
    requires IsCloser(c) && Run([], a).Some?
    requires Run([], a).value == [] || Run([], a).value[|Run([], a).value| - 1] != OpenerOf(c)
    ensures !Balanced(a + [c] + b)
  {
    RunAppend([], a, [c]);
    assert [c][..0] == [];
    RunFailureSticks([], a + [c], b);
  }

  /** Two balanced strings side by side are balanced. */
  lemma ConcatBalanced(a: string, b: string)
    requires Balanced(a) && Balanced(b)
    ensures Balanced(a + b)
  {
    RunAppend([], a, b);
  }

  /** A balanced string inside a matching pair of brackets is balanced. */
  lemma WrapBalanced(open: char, s: string, close: char)
    requires IsCloser(close) && open == OpenerOf(close) && Balanced(s)
    ensures Balanced([open] + s + [close])
  {
    assert Run([], [open]) == Some([open]) by {
      assert [open][..0] == [];
      assert [] + [open] == [open];
    }
    RunAppend([], [open], s);
    RunOnDeeperStack([open], [], s);
    assert [open] + [] == [open];
    assert Run([], [open] + s) == Some([open]);
    assert Run([open], [close]) == Some([]) by {
      assert [close][..0] == [];
    }
    RunAppend([], [open] + s, [close]);
  }

  /** A matching pair of brackets with nothing inside. */
  lemma PairBalanced(open: char, close: char)
    requires IsCloser(close) && open == OpenerOf(close)
    ensures Balanced([open, close])
  {
    WrapBalanced(open, [], close);
    assert [open] + [] + [close] == [open, close];
  }

  /** Reading only openers pushes them all. */
  lemma {:induction false} RunOpeners(stack: seq<char>, s: string)
    requires forall i :: 0 <= i < |s| ==> IsOpener(s[i])
    ensures Run(stack, s) == Some(stack + s)
    decreases |s|
  {
    if s == [] {
      assert stack + s == stack;
    } else {
      RunOpeners(stack, s[..|s| - 1]);
      assert stack + s[..|s| - 1] + [s[|s| - 1]] == stack + s;
    }
  }

  /** From the kata's test table: "([]{})" is valid. */
  lemma SampleNested(s: string)
    requires s == "([]{})"
    ensures Balanced(s)
  {
    PairBalanced('[', ']');
    PairBalanced('{', '}');
    ConcatBalanced("[]", "{}");
    WrapBalanced('(', "[]" + "{}", ')');
    assert ['('] + ("[]" + "{}") + [')'] == s;
  }

  /** From the kata's test table: "([)]" is not, the ')' meets '[' on top. */
  lemma SampleCrossed(s: string)
    requires s == "([)]"
    ensures !Balanced(s)
  {
    RunOpeners([], "([");
    assert [] + "([" == "([";
    MismatchIsFinal("([", ')', "]");
    assert "([" + [')'] + "]" == s;
  }

  /** From the kata's test table: "{[()()]}" is valid. */
  lemma SampleSiblings(s: string)
    requires s == "{[()()]}"
    ensures Balanced(s)
  {
    PairBalanced('(', ')');
    ConcatBalanced("()", "()");
    WrapBalanced('[', "()" + "()", ']');
    WrapBalanced('{', ['['] + ("()" + "()") + [']'], '}');
    assert ['{'] + (['['] + ("()" + "()") + [']']) + ['}'] == s;
  }

  /** From the kata's test table: "{{[[(())]]}}" is valid. */
  lemma SampleDeep(s: string)
    requires s == "{{[[(())]]}}"
    ensures Balanced(s)
  {
    var p := "()";
    PairBalanced('(', ')');
    var t1 := ['('] + p + [')'];
    WrapBalanced('(', p, ')');
    var t2 := ['['] + t1 + [']'];
    WrapBalanced('[', t1, ']');
    var t3 := ['['] + t2 + [']'];
    WrapBalanced('[', t2, ']');
    var t4 := ['{'] + t3 + ['}'];
    WrapBalanced('{', t3, '}');
    WrapBalanced('{', t4, '}');
    assert ['{'] + t4 + ['}'] == s;
  }

  /** From the kata's test table: "{[}" is not balanced, because the closer '}' meets the wrong opener '[' on top. */
  lemma SampleWrongCloser(s: string)
    requires s == "{[}"
    ensures !Balanced(s)
  {
    RunOpeners([], "{[");
    assert [] + "{[" == "{[";
    MismatchIsFinal("{[", '}', "");
    assert "{[" + ['}'] + "" == s;
  }
}
