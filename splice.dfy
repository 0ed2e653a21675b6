/** The instruction splicer's specification: an exit probe inserted
    immediately before every marked instruction of the original body, where
    marks are positions in the body as it was before any insertion (the
    positions stand for the node identities the source collects in a set). */
module Splice {
  import opened Sequences

  /** The marks that fall among the first n instructions. */
  function MarksBelow(marks: set<int>, n: int): set<int> {
    set d | d in marks && 0 <= d < n
  }

  /** The first n original instructions, each preceded by the probe when it is
      marked. */
  function WovenUpTo<T>(s: seq<T>, marks: set<int>, probe: seq<T>, n: nat): (r: seq<T>)
    requires n <= |s|
    ensures |r| >= n
  {
    if n == 0 then []
    else WovenUpTo(s, marks, probe, n - 1) + (if n - 1 in marks then probe else []) + [s[n - 1]]
  }

  /** The whole body after splicing. */
  function Woven<T>(s: seq<T>, marks: set<int>, probe: seq<T>): seq<T> {
    WovenUpTo(s, marks, probe, |s|)
  }

  /** Where original instruction k ends up after splicing. */
  function Pos<T>(s: seq<T>, marks: set<int>, probe: seq<T>, k: nat): nat
    requires k < |s|
  {
    |WovenUpTo(s, marks, probe, k)| + (if k in marks then |probe| else 0)
  }

  /** Every marked instruction adds one probe: the length grows by exactly
      (number of marks below n) times the probe's length. */
  lemma {:induction false} WovenUpToLength<T>(s: seq<T>, marks: set<int>, probe: seq<T>, n: nat)
    requires n <= |s|
    ensures |WovenUpTo(s, marks, probe, n)| == n + |MarksBelow(marks, n)| * |probe|
  {
    if n > 0 {
      WovenUpToLength(s, marks, probe, n - 1);
      var below := MarksBelow(marks, n - 1);
      if n - 1 in marks {
        assert MarksBelow(marks, n) == below + {n - 1};
        assert |MarksBelow(marks, n)| == |below| + 1;
      } else {
        assert MarksBelow(marks, n) == below;
      }
    }
  }

  /** With every mark on an instruction of the body, the body grows by exactly
      (number of marks) times the probe's length. */
  lemma WovenLength<T>(s: seq<T>, marks: set<int>, probe: seq<T>)
    requires forall d :: d in marks ==> 0 <= d < |s|
    ensures |Woven(s, marks, probe)| == |s| + |marks| * |probe|
  {
    WovenUpToLength(s, marks, probe, |s|);
    assert MarksBelow(marks, |s|) == marks;
  }

  lemma {:induction false} WovenUpToPrefix<T>(s: seq<T>, marks: set<int>, probe: seq<T>, i: nat, n: nat)
    requires i <= n <= |s|
    ensures |WovenUpTo(s, marks, probe, i)| <= |WovenUpTo(s, marks, probe, n)|
    ensures WovenUpTo(s, marks, probe, n)[..|WovenUpTo(s, marks, probe, i)|] == WovenUpTo(s, marks, probe, i)
    decreases n
  {
    if i < n {
      WovenUpToPrefix(s, marks, probe, i, n - 1);
      var p := WovenUpTo(s, marks, probe, n - 1);
      var tail := (if n - 1 in marks then probe else []) + [s[n - 1]];
      assert WovenUpTo(s, marks, probe, n) == p + tail;
      assert (p + tail)[..|p|] == p;
    }
  }

  /** Only the marks below n matter to the first n instructions. */
  lemma {:induction false} WovenUpToMarksBelow<T>(s: seq<T>, m1: set<int>, m2: set<int>, probe: seq<T>, n: nat)
    requires n <= |s|
    requires forall d :: 0 <= d < n ==> (d in m1 <==> d in m2)
    ensures WovenUpTo(s, m1, probe, n) == WovenUpTo(s, m2, probe, n)
  {
    if n > 0 {
      WovenUpToMarksBelow(s, m1, m2, probe, n - 1);
    }
  }

  /** Without marks below n, nothing is inserted. */
  lemma {:induction false} WovenUpToUnmarked<T>(s: seq<T>, marks: set<int>, probe: seq<T>, n: nat)
    requires n <= |s|
    requires forall d :: 0 <= d < n ==> d !in marks
    ensures WovenUpTo(s, marks, probe, n) == s[..n]
  {
    if n > 0 {
      WovenUpToUnmarked(s, marks, probe, n - 1);
      assert s[..n] == s[..n - 1] + [s[n - 1]];
    }
  }

  /** A body without marks is left as it was: a method without a return of its
      type gets no exit probe. */
  lemma NoMarksNoChange<T>(s: seq<T>, probe: seq<T>)
    ensures Woven(s, {}, probe) == s
  {
    WovenUpToUnmarked(s, {}, probe, |s|);
  }

  /** Each original instruction survives at Pos(k); a marked one is
      immediately preceded by exactly one copy of the probe; consecutive
      originals are separated by nothing but the probe of the later one, so
      the originals keep their relative order and the body holds nothing else. */
  lemma WovenLayout<T>(s: seq<T>, marks: set<int>, probe: seq<T>, k: nat)
    requires k < |s|
    ensures var w := Woven(s, marks, probe);
      && Pos(s, marks, probe, k) < |w|
      && w[Pos(s, marks, probe, k)] == s[k]
      && (k in marks ==> w[Pos(s, marks, probe, k) - |probe| .. Pos(s, marks, probe, k)] == probe)
      && (k == 0 ==> Pos(s, marks, probe, k) == if 0 in marks then |probe| else 0)
      && (k + 1 < |s| ==> Pos(s, marks, probe, k + 1)
                          == Pos(s, marks, probe, k) + 1 + if k + 1 in marks then |probe| else 0)
      && (k + 1 == |s| ==> Pos(s, marks, probe, k) == |w| - 1)
  {
    var w := Woven(s, marks, probe);
    WovenUpToPrefix(s, marks, probe, k + 1, |s|);
    var before := WovenUpTo(s, marks, probe, k);
    var piece := (if k in marks then probe else []) + [s[k]];
    var upto := WovenUpTo(s, marks, probe, k + 1);
    assert upto == before + piece;
    assert w[..|upto|] == upto;
    var p := Pos(s, marks, probe, k);
    assert |upto| == p + 1;
    assert w[p] == upto[p] == s[k];
    if k in marks {
      SliceOfPrefix(w, upto, |before|, p);
      assert upto[|before| .. p] == probe;
    }
    if k + 1 == |s| {
      assert w == upto;
    }
  }

  /** Inside the probe in front of a marked original, the spliced body holds
      the probe's instructions in order. */
  lemma WovenProbeAt<T>(s: seq<T>, marks: set<int>, probe: seq<T>, k: nat, j: int)
    requires k < |s| && k in marks
    requires Pos(s, marks, probe, k) - |probe| <= j < Pos(s, marks, probe, k)
    ensures 0 <= j < |Woven(s, marks, probe)|
    ensures Woven(s, marks, probe)[j] == probe[j - (Pos(s, marks, probe, k) - |probe|)]
  {
    WovenLayout(s, marks, probe, k);
    var w := Woven(s, marks, probe);
    var p := Pos(s, marks, probe, k);
    assert w[j] == w[p - |probe| .. p][j - (p - |probe|)];
  }

  /** Inserting one more probe before original q, at q's current position,
      gives the splice of the enlarged mark set: the result depends on the set
      of marks only, not on the order the probes are inserted in. */
  lemma WovenInsert<T>(s: seq<T>, marks: set<int>, probe: seq<T>, q: nat)
    requires q < |s| && q !in marks
    ensures var w := Woven(s, marks, probe);
      var at := |WovenUpTo(s, marks, probe, q)|;
      && at < |w|
      && Woven(s, marks + {q}, probe) == w[..at] + probe + w[at..]
  {
    WovenLayout(s, marks, probe, q);
    var w := Woven(s, marks, probe);
    var before := WovenUpTo(s, marks, probe, q);
    WovenUpToPrefix(s, marks, probe, q, |s|);
    WovenUpToMarksBelow(s, marks, marks + {q}, probe, q);
    InsertStep(s, marks, probe, q, |s|);
    assert w == w[..|before|] + w[|before|..];
  }

  lemma {:induction false} InsertStep<T>(s: seq<T>, marks: set<int>, probe: seq<T>, q: nat, n: nat)
    requires q < n <= |s| && q !in marks
    ensures |WovenUpTo(s, marks, probe, q)| <= |WovenUpTo(s, marks, probe, n)|
    ensures WovenUpTo(s, marks + {q}, probe, n)
            == WovenUpTo(s, marks, probe, q) + probe
               + WovenUpTo(s, marks, probe, n)[|WovenUpTo(s, marks, probe, q)|..]
    decreases n
  {
    var before := WovenUpTo(s, marks, probe, q);
    var cur := WovenUpTo(s, marks, probe, n);
    WovenUpToPrefix(s, marks, probe, q, n);
    if n == q + 1 {
      WovenUpToMarksBelow(s, marks, marks + {q}, probe, q);
      assert cur == before + [s[q]];
      assert cur[|before|..] == [s[q]];
    } else {
      InsertStep(s, marks, probe, q, n - 1);
      var prev := WovenUpTo(s, marks, probe, n - 1);
      var piece := (if n - 1 in marks then probe else []) + [s[n - 1]];
      assert cur == prev + piece;
      WovenUpToPrefix(s, marks, probe, q, n - 1);
      assert cur[|before|..] == prev[|before|..] + piece;
      Associate(before + probe, prev[|before|..], piece);
    }
  }

  /** Two probes inserted in either order give the same body. */
  lemma InsertionOrderIrrelevant<T>(s: seq<T>, marks: set<int>, probe: seq<T>, q1: nat, q2: nat)
    requires q1 < |s| && q2 < |s| && q1 != q2 && q1 !in marks && q2 !in marks
    ensures var w1 := Woven(s, marks + {q1}, probe);
      var w2 := Woven(s, marks + {q2}, probe);
      var a2 := |WovenUpTo(s, marks + {q1}, probe, q2)|;
      var a1 := |WovenUpTo(s, marks + {q2}, probe, q1)|;
      && a2 < |w1| && a1 < |w2|
      && w1[..a2] + probe + w1[a2..] == w2[..a1] + probe + w2[a1..]
  {
    WovenInsert(s, marks + {q1}, probe, q2);
    WovenInsert(s, marks + {q2}, probe, q1);
    assert marks + {q1} + {q2} == marks + {q2} + {q1};
  }

  /** Every position of the spliced body is either an original instruction or
      lies inside the probe of a marked one. */
  lemma {:induction false} WovenCover<T>(s: seq<T>, marks: set<int>, probe: seq<T>, n: nat, j: nat)
    requires n <= |s| && j < |WovenUpTo(s, marks, probe, n)|
    ensures exists k :: 0 <= k < n
                        && (j == Pos(s, marks, probe, k)
                            || (k in marks && Pos(s, marks, probe, k) - |probe| <= j < Pos(s, marks, probe, k)))
  {
    var prev := WovenUpTo(s, marks, probe, n - 1);
    if j >= |prev| {
      var k := n - 1;
      assert j == Pos(s, marks, probe, k)
             || (k in marks && Pos(s, marks, probe, k) - |probe| <= j < Pos(s, marks, probe, k));
    } else {
      WovenCover(s, marks, probe, n - 1, j);
    }
  }

  /** Splicing behind an unmarked prefix: when the marks on pre + s are
      those of s shifted past pre, the prefix is kept and s is spliced. */
  lemma WovenAfterPrefix<T>(pre: seq<T>, s: seq<T>, marks: set<int>, shifted: set<int>, probe: seq<T>)
    requires forall j :: 0 <= j < |pre| + |s| ==> (j in shifted <==> j >= |pre| && j - |pre| in marks)
    ensures Woven(pre + s, shifted, probe) == pre + Woven(s, marks, probe)
  {
    ShiftedUpTo(pre, s, marks, shifted, probe, |s|);
  }

  lemma {:induction false} ShiftedUpTo<T>(pre: seq<T>, s: seq<T>, marks: set<int>, shifted: set<int>, probe: seq<T>, n: nat)
    requires n <= |s|
    requires forall j :: 0 <= j < |pre| + |s| ==> (j in shifted <==> j >= |pre| && j - |pre| in marks)
    ensures WovenUpTo(pre + s, shifted, probe, |pre| + n) == pre + WovenUpTo(s, marks, probe, n)
  {
    if n == 0 {
      WovenUpToUnmarked(pre + s, shifted, probe, |pre|);
      assert (pre + s)[..|pre|] == pre;
    } else {
      ShiftedUpTo(pre, s, marks, shifted, probe, n - 1);
      assert (pre + s)[|pre| + n - 1] == s[n - 1];
    }
  }
}
