/** The shapes declared in types.ts: the session record and the screens of the app.
    Money is held in integer cents. */
module Types {

  /** One session's bill: laughs counted, amount owed, and the two configured prices. */
  datatype LaughStats = LaughStats(count: nat, totalDue: nat, pricePerLaugh: nat, maxCharge: nat)

  /** The screen the app is on. `Permissions` is declared but no handler ever enters it. */
  datatype AppState = Idle | Permissions | Showtime | Finished
}
