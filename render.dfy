/** The two `Render` implementations: a column of bees, one per line, and a
    row of cacti. Each `render` collects `n` copies of a fixed unit string.
    Characters are Unicode scalar values, so each emoji is one `char`. */
module Render {
  const Bee: char := '\U{1F41D}'
  const Cactus: char := '\U{1F335}'

  /** The unit of a bee render: a bee and a line break. */
  const BeeLine: string := [Bee, '\n']
  /** The unit of a cactus render: a single cactus. */
  const CactusCell: string := [Cactus]

  /** `n` copies of `unit`, concatenated: what collecting
      `repeat(unit).take(n)` into a string produces. */
  function Repeat(unit: string, n: nat): (r: string)
    ensures |r| == n * |unit|
  {
    if n == 0 then "" else unit + Repeat(unit, n - 1)
  }

  /** Taking one more copy appends one unit at the end. */
  lemma {:induction false} RepeatSucc(unit: string, n: nat)
    ensures Repeat(unit, n + 1) == Repeat(unit, n) + unit
  {
    if n > 0 {
      RepeatSucc(unit, n - 1);
    }
  }

  /** A shorter render is a prefix of a longer one. */
  lemma {:induction false} RepeatPrefix(unit: string, m: nat, n: nat)
    requires m <= n
    ensures Repeat(unit, m) <= Repeat(unit, n)
  {
    if m > 0 {
      RepeatPrefix(unit, m - 1, n - 1);
    }
  }

  /** Character `j` of the `q`-th copy is character `j` of the unit. */
  lemma {:induction false} RepeatAt(unit: string, n: nat, q: nat, j: nat)
    requires q < n && j < |unit|
    ensures q * |unit| + j < |Repeat(unit, n)|
    ensures Repeat(unit, n)[q * |unit| + j] == unit[j]
  {
    if q > 0 {
      RepeatAt(unit, n - 1, q - 1, j);
      assert q * |unit| + j == |unit| + ((q - 1) * |unit| + j);
    }
  }

  /** The number of occurrences of `c` in `s`. */
  function Occurrences(s: string, c: char): (k: nat)
    ensures k <= |s|
    ensures k == 0 <==> c !in s
  {
    if s == [] then 0 else (if s[0] == c then 1 else 0) + Occurrences(s[1..], c)
  }

  lemma {:induction false} OccurrencesRepeat(unit: string, n: nat, c: char)
    ensures Occurrences(Repeat(unit, n), c) == n * Occurrences(unit, c)
  {
    if n > 0 {
      var u, rest := Occurrences(unit, c), Repeat(unit, n - 1);
      OccurrencesRepeat(unit, n - 1, c);
      OccurrencesConcat(unit, rest, c);
      assert Occurrences(Repeat(unit, n), c) == u + (n - 1) * u;
    }
  }

  lemma {:induction false} OccurrencesConcat(s: string, t: string, c: char)
    ensures Occurrences(s + t, c) == Occurrences(s, c) + Occurrences(t, c)
  {
    if s != [] {
      assert (s + t)[1..] == s[1..] + t;
      OccurrencesConcat(s[1..], t, c);
    } else {
      assert s + t == t;
    }
  }

  /** `struct Bees { rows }` */
  datatype Bees = Bees(rows: nat) {
    /** A bee then a line break, `rows` times: bees at even positions,
        line breaks at odd positions. */
    function Render(): (r: string)
      ensures |r| == 2 * rows
      ensures forall i | 0 <= i < |r| :: r[i] == if i % 2 == 0 then Bee else '\n'
    {
      var r := Repeat(BeeLine, rows);
      assert forall i | 0 <= i < |r| :: r[i] == BeeLine[i % 2] by {
        forall i | 0 <= i < |r| ensures r[i] == BeeLine[i % 2] {
          RepeatAt(BeeLine, rows, i / 2, i % 2);
        }
      }
      r
    }
  }

  /** `struct Cactii { cols }` */
  datatype Cactii = Cactii(cols: nat) {
    /** A cactus, `cols` times, on one line. */
    function Render(): (r: string)
      ensures |r| == cols
      ensures forall i | 0 <= i < |r| :: r[i] == Cactus
      ensures '\n' !in r
    {
      var r := Repeat(CactusCell, cols);
      assert forall i | 0 <= i < |r| :: r[i] == Cactus by {
        forall i | 0 <= i < |r| ensures r[i] == Cactus {
          RepeatAt(CactusCell, cols, i, 0);
        }
      }
      r
    }
  }

  /** No rows renders as the empty string; one more row appends one line. */
  lemma BeesSucc(rows: nat)
    ensures Bees(0).Render() == ""
    ensures Bees(rows + 1).Render() == Bees(rows).Render() + "\U{1F41D}\n"
  {
    // follows from the character-by-character contract of `Bees.Render`
  }

  /** No columns renders as the empty string; one more column appends one cactus. */
  lemma CactiiSucc(cols: nat)
    ensures Cactii(0).Render() == ""
    ensures Cactii(cols + 1).Render() == Cactii(cols).Render() + "\U{1F335}"
  {
    // follows from the character-by-character contract of `Cactii.Render`
  }

  /** A bee render holds exactly `rows` line breaks and `rows` bees. */
  lemma BeesLineCount(rows: nat)
    ensures Occurrences(Bees(rows).Render(), '\n') == rows
    ensures Occurrences(Bees(rows).Render(), Bee) == rows
  {
    OccurrencesRepeat(BeeLine, rows, '\n');
    OccurrencesRepeat(BeeLine, rows, Bee);
  }

  /** Rendering fewer rows (columns) gives a prefix of rendering more. */
  lemma RenderPrefix(m: nat, n: nat)
    requires m <= n
    ensures Bees(m).Render() <= Bees(n).Render()
    ensures Cactii(m).Render() <= Cactii(n).Render()
  {
    // follows from the character-by-character contracts of the renders
  }
}
