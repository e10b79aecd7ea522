/** The paint-by-number bookkeeping of `run`: the dict `unique_colors` and
    the counter `color_counter`, fed one quantized colour per cell. A colour
    seen for the first time gets the current counter, which then goes up by
    one; a colour seen before keeps its number. */
module Labels {
  import opened Rgb

  /** `unique_colors` and `color_counter` together. */
  datatype LabelState = LabelState(labels: map<Color, int>, counter: int)

  /** `unique_colors = {}` and `color_counter = 1`. */
  const INITIAL: LabelState := LabelState(map[], 1)

  /** The bookkeeping for one cell whose quantized colour is `c`. */
  function Step(s: LabelState, c: Color): LabelState {
    if c in s.labels then s else LabelState(s.labels[c := s.counter], s.counter + 1)
  }

  /** The bookkeeping for the colours `cs`, in order. */
  function Assign(s: LabelState, cs: seq<Color>): LabelState
    decreases |cs|
  {
    if cs == [] then s else Step(Assign(s, cs[..|cs| - 1]), cs[|cs| - 1])
  }

  /** The numbers in use are exactly 1 .. counter - 1, each for one colour. */
  ghost predicate Consecutive(s: LabelState) {
    && s.counter >= 1
    && (forall c :: c in s.labels ==> 1 <= s.labels[c] < s.counter)
    && (forall c, d :: c in s.labels && d in s.labels && c != d ==> s.labels[c] != s.labels[d])
    && (forall k :: 1 <= k < s.counter ==> k in s.labels.Values)
  }

  /** Position `i` holds the first occurrence of `c` in `cs`. */
  predicate IsFirst(cs: seq<Color>, c: Color, i: int) {
    0 <= i < |cs| && cs[i] == c && forall j :: 0 <= j < i ==> cs[j] != c
  }

  lemma AssignSnoc(s: LabelState, cs: seq<Color>, x: Color)
    ensures Assign(s, cs + [x]) == Step(Assign(s, cs), x)
  {
    assert (cs + [x])[..|cs|] == cs;
  }

  /** Running the bookkeeping over `a + b` is running it over `a`, then `b`. */
  lemma {:induction false} AssignConcat(s: LabelState, a: seq<Color>, b: seq<Color>)
    ensures Assign(s, a + b) == Assign(Assign(s, a), b)
    decreases |b|
  {
    if b == [] {
      assert a + b == a;
    } else {
      var init := b[..|b| - 1];
      var x := b[|b| - 1];
      assert b == init + [x];
      assert a + b == (a + init) + [x];
      AssignSnoc(s, a + init, x);
      AssignConcat(s, a, init);
      AssignSnoc(Assign(s, a), init, x);
    }
  }

  /** A number, once given, is never changed or taken back, and the counter
      never goes down. */
  lemma {:induction false} AssignExtends(s: LabelState, cs: seq<Color>)
    ensures s.counter <= Assign(s, cs).counter
    ensures forall c :: c in s.labels ==> c in Assign(s, cs).labels && Assign(s, cs).labels[c] == s.labels[c]
    decreases |cs|
  {
    if cs != [] {
      AssignExtends(s, cs[..|cs| - 1]);
    }
  }

  /** After the bookkeeping, every colour of `cs` has a number. */
  lemma {:induction false} AssignCovers(s: LabelState, cs: seq<Color>)
    ensures forall c :: c in cs ==> c in Assign(s, cs).labels
    decreases |cs|
  {
    if cs != [] {
      var init := cs[..|cs| - 1];
      AssignCovers(s, init);
      assert cs == init + [cs[|cs| - 1]];
    }
  }

  /** Colours that already have numbers change nothing. */
  lemma {:induction false} AssignKnown(s: LabelState, cs: seq<Color>)
    requires forall c :: c in cs ==> c in s.labels
    ensures Assign(s, cs) == s
    decreases |cs|
  {
    if cs != [] {
      AssignKnown(s, cs[..|cs| - 1]);
    }
  }

  /** A second pass over the same colours adds no key and changes no number. */
  lemma AssignTwice(s: LabelState, cs: seq<Color>)
    ensures Assign(Assign(s, cs), cs) == Assign(s, cs)
  {
    AssignCovers(s, cs);
    AssignKnown(Assign(s, cs), cs);
  }

  /** The bookkeeping keeps the numbers consecutive and one-to-one. */
  lemma StepConsecutive(s: LabelState, x: Color)
    requires Consecutive(s)
    ensures Consecutive(Step(s, x))
  {
    if x !in s.labels {
      var t := Step(s, x);
      assert t.labels[x] == s.counter;
      forall k | 1 <= k < t.counter
        ensures k in t.labels.Values
      {
        if k == s.counter {
          assert t.labels[x] == k;
        } else {
          assert k in s.labels.Values;
          var c :| c in s.labels && s.labels[c] == k;
          assert t.labels[c] == k;
        }
      }
    }
  }

  lemma IsFirstSnoc(cs: seq<Color>, x: Color, c: Color, i: int)
    ensures IsFirst(cs + [x], c, i) <==> IsFirst(cs, c, i) || (i == |cs| && c == x && x !in cs)
  {
    var t := cs + [x];
    if 0 <= i < |cs| {
      assert t[i] == cs[i];
      assert (forall j :: 0 <= j < i ==> t[j] != c) <==> (forall j :: 0 <= j < i ==> cs[j] != c) by {
        forall j | 0 <= j < i
          ensures t[j] == cs[j]
        {
        }
      }
    } else if i == |cs| {
      if c == x && x in cs {
        var j :| 0 <= j < |cs| && cs[j] == x;
        assert t[j] == x;
      }
      if c == x && x !in cs {
        forall j | 0 <= j < i
          ensures t[j] != c
        {
          assert t[j] == cs[j];
        }
      }
    }
  }

  /** Starting from `unique_colors = {}` and `color_counter = 1`, the colours
      of `cs` are exactly the keys, the numbers are 1 .. counter - 1 with no
      gap or repeat, and they follow the order in which the colours first
      appear in `cs`. */
  lemma {:induction false} AssignFromInitial(cs: seq<Color>)
    ensures Consecutive(Assign(INITIAL, cs))
    ensures forall c :: c in Assign(INITIAL, cs).labels <==> c in cs
    ensures forall c, d, i, j :: IsFirst(cs, c, i) && IsFirst(cs, d, j) ==>
      (Assign(INITIAL, cs).labels[c] < Assign(INITIAL, cs).labels[d] <==> i < j)
    decreases |cs|
  {
    if cs != [] {
      var init := cs[..|cs| - 1];
      var x := cs[|cs| - 1];
      assert cs == init + [x];
      AssignFromInitial(init);
      var s := Assign(INITIAL, init);
      var t := Assign(INITIAL, cs);
      assert t == Step(s, x);
      StepConsecutive(s, x);
      forall c
        ensures c in t.labels <==> c in cs
      {
        assert c in cs <==> c in init || c == x;
      }
      forall c, d, i, j | IsFirst(cs, c, i) && IsFirst(cs, d, j)
        ensures t.labels[c] < t.labels[d] <==> i < j
      {
        IsFirstSnoc(init, x, c, i);
        IsFirstSnoc(init, x, d, j);
      }
    }
  }

  /** The colour of the first cell scanned always gets number 1. */
  lemma FirstColorGetsOne(cs: seq<Color>)
    requires |cs| > 0
    ensures cs[0] in Assign(INITIAL, cs).labels && Assign(INITIAL, cs).labels[cs[0]] == 1
  {
    assert cs == [cs[0]] + cs[1..];
    AssignConcat(INITIAL, [cs[0]], cs[1..]);
    assert [cs[0]][..0] == [];
    AssignExtends(Assign(INITIAL, [cs[0]]), cs[1..]);
  }

  /** The number looked up for the colour of position `i` right after its
      bookkeeping step is the number it still has at the end of the scan. */
  lemma DrawnNumberIsFinal(s: LabelState, cs: seq<Color>, i: int)
    requires 0 <= i < |cs|
    ensures cs[i] in Assign(s, cs[..i + 1]).labels && cs[i] in Assign(s, cs).labels
    ensures Assign(s, cs[..i + 1]).labels[cs[i]] == Assign(s, cs).labels[cs[i]]
  {
    var head := cs[..i + 1];
    assert cs == head + cs[i + 1..];
    AssignSnoc(s, cs[..i], cs[i]);
    assert head == cs[..i] + [cs[i]];
    AssignConcat(s, head, cs[i + 1..]);
    AssignExtends(Assign(s, head), cs[i + 1..]);
  }
}
