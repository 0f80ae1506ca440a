/**
 * Value-level model of the seat board kept by class `Cine`: the board is the
 * sequence of seat states (true = reserved, false = free), a seat is addressed
 * by its 1-based number, and the two things the class does with the board are
 * toggling one seat and laying the board out on the screen.
 */
module Seats {

  /** What one call of the reserve-or-cancel operation did. */
  datatype Outcome = Invalid | Reserved | Cancelled | Unchanged

  /** The board after a toggle, together with what the toggle reported. */
  datatype Step = Step(seats: seq<bool>, outcome: Outcome)

  /** One item the seat display emits: a numbered seat with its status, or a line break. */
  datatype Token = Cell(number: int, reserved: bool) | Newline

  /** A freshly built board of `n` seats. */
  function AllFree(n: nat): (s: seq<bool>)
    ensures |s| == n
    ensures forall i :: 0 <= i < n ==> !s[i]
  {
    seq(n, _ => false)
  }

  /** A seat number the board accepts. */
  predicate InRange(s: seq<bool>, numero: int)
  {
    1 <= numero <= |s|
  }

  /** The confirmation answer that cancels a reservation. */
  predicate Confirms(respuesta: char)
  {
    respuesta == 's' || respuesta == 'S'
  }

  /**
   * Reserve a free seat, or cancel a reserved one when the answer confirms it.
   * The answer is consulted only for a seat that is already reserved.
   */
  function Toggle(s: seq<bool>, numero: int, respuesta: char): (r: Step)
    // the number of seats never changes, and no seat but `numero - 1` does
    ensures |r.seats| == |s|
    ensures forall i :: 0 <= i < |s| && i != numero - 1 ==> r.seats[i] == s[i]
    // the report is Invalid exactly for a number out of range
    ensures r.outcome == Invalid <==> !InRange(s, numero)
    // the board changes exactly when the report says a seat changed
    ensures r.seats != s <==> r.outcome in {Reserved, Cancelled}
    // what each report says about the seat before and after
    ensures r.outcome == Reserved ==> !s[numero - 1] && r.seats[numero - 1]
    ensures r.outcome == Cancelled ==> s[numero - 1] && Confirms(respuesta) && !r.seats[numero - 1]
    ensures r.outcome == Unchanged ==> s[numero - 1] && !Confirms(respuesta)
  {
    if numero < 1 || numero > |s| then
      Step(s, Invalid)
    else
      var index := numero - 1;
      if s[index] then
        if Confirms(respuesta) then
          Step(s[index := false], Cancelled)
        else
          Step(s, Unchanged)
      else
        Step(s[index := true], Reserved)
  }

  /** The answer is read only when the seat is reserved: otherwise it cannot affect the result. */
  lemma AnswerIgnoredUnlessReserved(s: seq<bool>, numero: int, a: char, b: char)
    requires !InRange(s, numero) || !s[numero - 1]
    ensures Toggle(s, numero, a) == Toggle(s, numero, b)
  {
  }

  /** Reserving a free seat and then confirming its cancellation restores the board. */
  lemma ReserveThenCancel(s: seq<bool>, numero: int, first: char, second: char)
    requires InRange(s, numero) && !s[numero - 1]
    requires Confirms(second)
    ensures Toggle(s, numero, first).outcome == Reserved
    ensures Toggle(Toggle(s, numero, first).seats, numero, second) == Step(s, Cancelled)
  {
  }

  /** Confirming the cancellation of a reserved seat and then toggling it again restores the board. */
  lemma CancelThenReserve(s: seq<bool>, numero: int, first: char, second: char)
    requires InRange(s, numero) && s[numero - 1]
    requires Confirms(first)
    ensures Toggle(s, numero, first).outcome == Cancelled
    ensures Toggle(Toggle(s, numero, first).seats, numero, second) == Step(s, Reserved)
  {
  }

  /** Number of reserved seats on a board. */
  function CountReserved(s: seq<bool>): (k: nat)
    ensures k <= |s|
  {
    if s == [] then 0 else (if s[0] then 1 else 0) + CountReserved(s[1..])
  }

  lemma {:induction false} CountReservedUpdate(s: seq<bool>, i: nat, b: bool)
    requires i < |s|
    ensures CountReserved(s[i := b]) == CountReserved(s) - (if s[i] then 1 else 0) + (if b then 1 else 0)
  {
    if i > 0 {
      CountReservedUpdate(s[1..], i - 1, b);
      assert s[i := b][1..] == s[1..][i - 1 := b];
    }
  }

  /** A reservation adds one reserved seat, a cancellation removes one, anything else none. */
  lemma ToggleCount(s: seq<bool>, numero: int, respuesta: char)
    ensures var r := Toggle(s, numero, respuesta);
      CountReserved(r.seats) == CountReserved(s)
        + (if r.outcome == Reserved then 1 else 0)
        - (if r.outcome == Cancelled then 1 else 0)
  {
    if InRange(s, numero) {
      CountReservedUpdate(s, numero - 1, !s[numero - 1]);
    }
  }

  /**
   * What the seat display emits for a board, before its closing line break:
   * the seats in index order, seat `i` labelled `i + 1`, and a line break after
   * every label that is a multiple of five.
   */
  function Layout(s: seq<bool>): seq<Token>
  {
    if s == [] then []
    else
      var n := |s|;
      Layout(s[..n - 1]) + [Cell(n, s[n - 1])] + (if n % 5 == 0 then [Newline] else [])
  }

  /** One item per seat, plus one line break per completed row of five. */
  lemma {:induction false} LayoutLength(s: seq<bool>)
    ensures |Layout(s)| == |s| + |s| / 5
  {
    if s != [] {
      var n := |s|;
      LayoutLength(s[..n - 1]);
      var q, r := Split5(n - 1);
    }
  }

  /** The layout is rows of five seats, each closed by a line break: item `j` is a line break exactly when `j % 6 == 5`. */
  lemma {:induction false} LayoutNewlines(s: seq<bool>)
    ensures forall j :: 0 <= j < |Layout(s)| ==> (Layout(s)[j].Newline? <==> j % 6 == 5)
  {
    if s != [] {
      var n := |s|;
      var p := s[..n - 1];
      LayoutNewlines(p);
      LayoutLength(p);
      var q, r := Split5(n - 1);
      assert Layout(s) == Layout(p) + [Cell(n, s[n - 1])] + (if r == 4 then [Newline] else []);
      Mod6(q, r);
      Mod6(q, 5);
    }
  }

  /** Seat `i` is shown at item `i + i / 5`, numbered `i + 1`, with its own status. */
  lemma {:induction false} LayoutCells(s: seq<bool>)
    ensures forall i :: 0 <= i < |s| ==> i + i / 5 < |Layout(s)| && Layout(s)[i + i / 5] == Cell(i + 1, s[i])
  {
    LayoutLength(s);
    if s != [] {
      var n := |s|;
      var p := s[..n - 1];
      LayoutCells(p);
      LayoutLength(p);
      assert Layout(s) == Layout(p) + [Cell(n, s[n - 1])] + (if n % 5 == 0 then [Newline] else []);
      forall i | 0 <= i < n
        ensures i + i / 5 < |Layout(s)| && Layout(s)[i + i / 5] == Cell(i + 1, s[i])
      {
        if i < n - 1 {
          Div5Monotone(i, n - 1);
          assert Layout(s)[i + i / 5] == Layout(p)[i + i / 5];
        }
      }
    }
  }

  /** `x` as `5 * q + r` with `r < 5`. */
  lemma Split5(x: nat) returns (q: nat, r: nat)
    ensures x == 5 * q + r && r < 5
    ensures q == x / 5 && r == x % 5
    ensures (x + 1) / 5 == if r == 4 then q + 1 else q
    ensures (x + 1) % 5 == 0 <==> r == 4
  {
    q, r := x / 5, x % 5;
  }

  lemma Mod6(q: nat, r: nat)
    requires r < 6
    ensures (6 * q + r) % 6 == r
  {
  }

  lemma Div5Monotone(a: nat, b: nat)
    requires a <= b
    ensures a / 5 <= b / 5
  {
  }

  /** A row ends right after the seat labelled `k` exactly when `k` is a multiple of five. */
  lemma RowBreakAfter(s: seq<bool>, i: nat)
    requires i < |s|
    ensures (i + i / 5 + 1 < |Layout(s)| && Layout(s)[i + i / 5 + 1] == Newline) <==> (i + 1) % 5 == 0
  {
    LayoutLength(s);
    LayoutNewlines(s);
    var q, r := Split5(i);
    Mod6(q, r + 1);
    if r == 4 {
      Div5Monotone(i + 1, |s|);
    }
  }
}
