# Reserva_Cine: a verified model of the seat board

The program is a console demo for a cinema with a fixed number of numbered
seats. Class `Cine` keeps one boolean per seat (`reservados`, true = reserved,
false = free). Its constructor builds a board with every seat free.
`reservarOCancelar(numero)` takes a 1-based seat number and rejects a number
out of range. It reserves a free seat. For a reserved seat it asks for
confirmation, and cancels the reservation only when the answer is `s` or `S`.
`mostrarEspacios()` prints the seats in order, numbered from 1, coloured by
status, five to a line.

The model has two modules:

- `Seats` (`seats.dfy`) is the value-level view of the board, a `seq<bool>`.
  It defines the outcome of a toggle (`Invalid | Reserved | Cancelled | Unchanged`),
  the toggle as a function `Toggle`, and the screen layout as a token stream
  `Layout` of `Cell(number, reserved)` and `Newline`. It also holds the lemmas
  about both.
- `Cinema` (`cinema.dfy`) is class `Cine` over a fixed-length `array<bool>`.
  Its constructor, the in-place method `ReservarOCancelar` and the read-only
  method `MostrarEspacios` are each proved against the functions of `Seats`.
  `ThirtySeatSession` is a client of the class contracts. It mirrors the
  program's own thirty-seat cinema: reserve seat 1, cancel it, then try seats
  31 and 0.

The answer to the confirmation question (`cin >> respuesta`) is a `char`
parameter of `ReservarOCancelar`. It is consulted only when the seat is
already reserved. The colours become the `reserved` flag of each `Cell`.

Two points where the model follows the code rather than a more general
description of a seat board:

- The code accepts a cinema of zero seats, so the constructor takes any `nat`,
  zero included.
- The code has no separate "is this seat reserved" query, so the model has none.
  Proofs read the board through the ghost function `Board()`.

## Model

| member | source | states |
|---|---|---|
| `Seats.AllFree` | main.cpp:28 | the initial board has exactly `n` seats and none of them is reserved |
| `Cinema.Cine.constructor` | main.cpp:28 | a new cinema has a fresh array of `cantidadEspacios` seats, all free, equal to `AllFree(cantidadEspacios)` |
| `Seats.Toggle` | main.cpp:71-95 | the seat count never changes; no seat other than index `numero - 1` changes; the outcome is `Invalid` exactly when `numero` is outside `1..n`; the board changes exactly when the outcome is `Reserved` or `Cancelled`; `Reserved` means the seat went from free to reserved; `Cancelled` means it went from reserved to free on a confirming answer; `Unchanged` means it was reserved and the answer did not confirm |
| `Cinema.Cine.ReservarOCancelar` | main.cpp:71-96 | the new board and the outcome are those of `Toggle` on the old board; out of range: `Invalid` and the board is unchanged; a free seat becomes reserved; a reserved seat becomes free on `s`/`S` and stays reserved on any other answer; every other seat keeps its old state |
| `Seats.AnswerIgnoredUnlessReserved` | main.cpp:80-84 | for an out-of-range number or a free seat, the confirmation answer has no effect on the result |
| `Seats.ReserveThenCancel` | main.cpp:80-95 | reserving a free seat (with any answer) and then toggling it again with `s`/`S` gives `Reserved`, then `Cancelled`, and restores the original board |
| `Seats.CancelThenReserve` | main.cpp:80-95 | cancelling a reserved seat with `s`/`S` and then toggling it again (with any answer) gives `Cancelled`, then `Reserved`, and restores the original board |
| `Seats.CountReservedUpdate` | main.cpp:86-93 | writing one seat changes the number of reserved seats by the difference between its new and old state |
| `Seats.ToggleCount` | main.cpp:78-95 | a `Reserved` outcome adds exactly one reserved seat, `Cancelled` removes exactly one, `Invalid` and `Unchanged` leave the count as it was |
| `Seats.LayoutLength` | main.cpp:42-55 | the display of `n` seats has `n + n / 5` items: one per seat plus one line break per completed row of five |
| `Seats.LayoutNewlines` | main.cpp:53-54 | item `j` is a line break exactly when `j % 6 == 5`, so the grid is rows of five seats, each closed by a line break |
| `Seats.LayoutCells` | main.cpp:44-50 | seat index `i` is shown at item `i + i / 5`, numbered `i + 1`, marked with its status |
| `Seats.RowBreakAfter` | main.cpp:50-54 | a line break follows the seat numbered `k` exactly when `k % 5 == 0` |
| `Cinema.Cine.MostrarEspacios` | main.cpp:38-60 | the display is `Layout` of the current board followed by the closing line break; the method has no `modifies` clause, so it changes no seat, and two calls with no toggle in between show the same thing |

## Left out

- Console handling: `GetStdHandle`, the colour codes of `SetConsoleTextAttribute`, `SetConsoleOutputCP`/`SetConsoleCP` and `system("cls")`. These are Windows display calls. A seat's colour is its `reserved` flag.
- Message text and formatting: the heading, the `[%2d] ` field width and every `cout` message. These are presentation only.
- The `cin` reads. The seat number and the confirmation answer are parameters. Whitespace skipping and failed reads of `cin` are not modelled.
- The menu loop of `main` (main.cpp:117-136). It calls `reservarOCancelar` only for option 1, stops on option 2, and reports any other option as invalid. `ThirtySeatSession` covers only its thirty-seat cinema.
- The call to `mostrarEspacios()` at the end of `reservarOCancelar` (main.cpp:97). Its only effect is to redraw the screen, and `MostrarEspacios` already models what it shows.
- Cinema.Cine.constructor: takes a `nat`. A negative `int` makes the C++ `vector` constructor throw, and that failure is not modelled.
- Cinema.Cine.ReservarOCancelar: `numero` is an unbounded `int` and the seat count is not cast to a 32-bit `int`. The two agree with the source for every board of at most 2^31 - 1 seats and every number `cin` can store.
