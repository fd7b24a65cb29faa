/** Subquery scopes in generated text: a line that is exactly `CALL {` opens
    one, a line that is exactly `}` closes one. A list of lines is balanced when
    it closes every scope it opens and never closes one it did not open. */
module Scopes {
  import Text

  function Delta(line: string): int
  {
    if line == "CALL {" then 1 else if line == "}" then -1 else 0
  }

  /** Open scopes after the lines. */
  function Depth(lines: seq<string>): int
  {
    if lines == [] then 0 else Depth(lines[..|lines| - 1]) + Delta(lines[|lines| - 1])
  }

  predicate Balanced(lines: seq<string>)
  {
    Depth(lines) == 0 && forall k :: 0 <= k <= |lines| ==> Depth(lines[..k]) >= 0
  }

  /** No line opens or closes a scope. */
  predicate Neutral(lines: seq<string>)
  {
    forall i :: 0 <= i < |lines| ==> Delta(lines[i]) == 0
  }

  lemma {:induction false} DepthAppend(a: seq<string>, b: seq<string>)
    ensures Depth(a + b) == Depth(a) + Depth(b)
    decreases |b|
  {
    if b != [] {
      var n := |b| - 1;
      assert (a + b)[..|a + b| - 1] == a + b[..n];
      DepthAppend(a, b[..n]);
    } else {
      assert a + b == a;
    }
  }

  lemma {:induction false} NeutralDepth(a: seq<string>)
    requires Neutral(a)
    ensures Depth(a) == 0
    decreases |a|
  {
    if a != [] {
      NeutralDepth(a[..|a| - 1]);
    }
  }

  lemma NeutralBalanced(a: seq<string>)
    requires Neutral(a)
    ensures Balanced(a)
  {
    NeutralDepth(a);
    forall k | 0 <= k <= |a| ensures Depth(a[..k]) >= 0 {
      NeutralDepth(a[..k]);
    }
  }

  lemma BalancedAppend(a: seq<string>, b: seq<string>)
    requires Balanced(a) && Balanced(b)
    ensures Balanced(a + b)
  {
    DepthAppend(a, b);
    forall k | 0 <= k <= |a + b| ensures Depth((a + b)[..k]) >= 0 {
      if k <= |a| {
        assert (a + b)[..k] == a[..k];
      } else {
        assert (a + b)[..k] == a + b[..k - |a|];
        DepthAppend(a, b[..k - |a|]);
      }
    }
  }

  /** `CALL {`, balanced lines, `}` is balanced. */
  lemma Wrap(a: seq<string>)
    requires Balanced(a)
    ensures Balanced(["CALL {"] + a + ["}"])
  {
    var w := ["CALL {"] + a + ["}"];
    DepthAppend(["CALL {"], a);
    DepthAppend(["CALL {"] + a, ["}"]);
    assert Depth(["CALL {"]) == 1 by { assert ["CALL {"][..0] == []; }
    assert Depth(["}"]) == -1 by { assert ["}"][..0] == []; }
    forall k | 0 <= k <= |w| ensures Depth(w[..k]) >= 0 {
      if k == 0 {
      } else if k <= |a| + 1 {
        assert w[..k] == ["CALL {"] + a[..k - 1];
        DepthAppend(["CALL {"], a[..k - 1]);
      } else {
        assert w[..k] == w;
      }
    }
  }

  lemma NeutralAppend(a: seq<string>, b: seq<string>)
    requires Neutral(a) && Neutral(b)
    ensures Neutral(a + b)
  {
    forall i | 0 <= i < |a + b| ensures Delta((a + b)[i]) == 0 {
      if i >= |a| {
        assert (a + b)[i] == b[i - |a|];
      }
    }
  }

  /** A line whose first character is neither `C` nor `}`, whose sixth is not `{`, or
      whose length is neither that of `CALL {` nor of `}`, neither opens nor closes a scope. */
  lemma LineNeutral(line: string)
    requires (|line| >= 1 && line[0] != 'C' && line[0] != '}') || (|line| >= 6 && line[5] != '{')
             || (|line| != 6 && |line| != 1)
    ensures Delta(line) == 0
  {
  }

  /** Lines joined with newlines, as one item: a balanced list never joins into a bare
      `CALL {` or `}`. */
  lemma JoinNeutral(lines: seq<string>)
    requires Balanced(lines)
    ensures Delta(Text.Join(lines, "\n")) == 0
  {
    var j := Text.Join(lines, "\n");
    if |lines| == 1 {
      assert lines[..0] == [];
    } else if |lines| > 1 {
      var k := |lines[0]|;
      assert j[k] == '\n';
    }
  }
}
