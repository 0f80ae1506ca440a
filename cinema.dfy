/**
 * The cinema of the console program: a fixed number of numbered seats, each
 * reserved or free, updated in place one seat at a time.
 */
module Cinema {
  import opened Seats

  class Cine {
    /** `reservados[i]` is true when seat `i + 1` is reserved; the length is fixed at construction. */
    const reservados: array<bool>

    /** The board as a value. */
    ghost function Board(): seq<bool>
      reads reservados
    {
      reservados[..]
    }

    /** A cinema with `cantidadEspacios` seats, every one of them free. */
    constructor (cantidadEspacios: nat)
      ensures fresh(reservados)
      ensures reservados.Length == cantidadEspacios
      ensures forall i :: 0 <= i < reservados.Length ==> !reservados[i]
      ensures Board() == AllFree(cantidadEspacios)
    {
      reservados := new bool[cantidadEspacios](_ => false);
    }

    /**
     * Reserve seat `numero` (1-based) if it is free; if it is reserved, cancel
     * the reservation when `respuesta`, the answer to the confirmation
     * question, is 's' or 'S', and keep it otherwise.
     */
    method ReservarOCancelar(numero: int, respuesta: char) returns (outcome: Outcome)
      modifies reservados
      ensures Step(Board(), outcome) == Toggle(old(Board()), numero, respuesta)
      ensures !(1 <= numero <= reservados.Length) ==> outcome == Invalid && Board() == old(Board())
      ensures 1 <= numero <= reservados.Length && !old(reservados[numero - 1]) ==>
        outcome == Reserved && reservados[numero - 1]
      ensures 1 <= numero <= reservados.Length && old(reservados[numero - 1]) && Confirms(respuesta) ==>
        outcome == Cancelled && !reservados[numero - 1]
      ensures 1 <= numero <= reservados.Length && old(reservados[numero - 1]) && !Confirms(respuesta) ==>
        outcome == Unchanged && reservados[numero - 1]
      ensures forall i :: 0 <= i < reservados.Length && i != numero - 1 ==> reservados[i] == old(reservados[i])
    {
      if numero < 1 || numero > reservados.Length {
        return Invalid;
      }
      var index := numero - 1;
      if reservados[index] {
        if respuesta == 's' || respuesta == 'S' {
          reservados[index] := false;
          outcome := Cancelled;
        } else {
          outcome := Unchanged;
        }
      } else {
        reservados[index] := true;
        outcome := Reserved;
      }
    }

    /**
     * What the seat display shows, in order: every seat with its number and
     * status, a line break after every fifth seat, and a closing line break.
     * It only reads the board.
     */
    method MostrarEspacios() returns (pantalla: seq<Token>)
      ensures pantalla == Layout(Board()) + [Newline]
    {
      pantalla := [];
      var i := 0;
      while i < reservados.Length
        invariant 0 <= i <= reservados.Length
        invariant pantalla == Layout(reservados[..i])
      {
        assert reservados[..i + 1][..i] == reservados[..i];
        pantalla := pantalla + [Cell(i + 1, reservados[i])];
        if (i + 1) % 5 == 0 {
          pantalla := pantalla + [Newline];
        }
        i := i + 1;
      }
      assert reservados[..i] == reservados[..];
      pantalla := pantalla + [Newline];
    }
  }

  /**
   * The program's own cinema of thirty seats, driven through one reservation,
   * its cancellation and an out-of-range number, using only the class contracts.
   */
  method ThirtySeatSession()
  {
    var cine := new Cine(30);
    var o := cine.ReservarOCancelar(1, 'n');
    assert o == Reserved && cine.reservados[0];
    assert forall i :: 1 <= i < 30 ==> !cine.reservados[i];
    o := cine.ReservarOCancelar(1, 's');
    assert o == Cancelled;
    assert cine.Board() == AllFree(30);
    o := cine.ReservarOCancelar(31, 's');
    assert o == Invalid;
    o := cine.ReservarOCancelar(0, 's');
    assert o == Invalid;
  }
}
