/**
 * The shared data shape of the two stores: the contacts table kept locally,
 * and the rows of the remote worksheet.
 */
module Records {

  datatype Option<T> = None | Some(value: T) {
    /** The value, or `default` when there is none. */
    function GetOr(default: T): T {
      match this
      case Some(v) => v
      case None => default
    }
  }

  /** The seven opaque text columns, in sheet order (columns B to H). */
  datatype Fields = Fields(
    firstName: string,
    middleName: string,
    lastName: string,
    organization: string,
    mobile: string,
    cleanPhone: string,
    home: string)

  /**
   * A row of the local contacts table, without its key. `updatedAt` is a
   * count of minutes; None stands for a value that does not parse.
   */
  datatype LocalRow = LocalRow(fields: Fields, updatedAt: Option<int>)

  /**
   * The id cell of a sheet row as the sheet client reads it: integer-looking
   * cells arrive as integers, anything else (blank, words, decimals) as text.
   */
  datatype IdCell = Num(n: int) | Other(text: string)

  /** A data row of the worksheet (column A, columns B to H, column I). */
  datatype SheetRow = SheetRow(id: IdCell, fields: Fields, updatedAt: Option<int>)

  /** A physical cell of the worksheet, both coordinates counted from 1. */
  datatype Cell = Cell(row: nat, column: nat)

  /** Column of the `updated_at` header: A=1 holds the id, I=9 the timestamp. */
  const UpdatedAtColumn: nat := 9

  /** Data row `pos` (0-based) sits below the header row, on sheet row pos + 2. */
  function PhysicalRow(pos: nat): (row: nat)
    ensures row >= 2
  {
    pos + 2
  }

  /**
   * `t > other` between timestamps: a comparison with a missing timestamp
   * (NaT) is false.
   */
  predicate Newer(t: int, other: Option<int>)
    ensures other.None? ==> !Newer(t, other)
    ensures other == Some(t) ==> !Newer(t, other)
  {
    other.Some? && t > other.value
  }

  /** `str(id).isdigit()`: only a non-negative integer renders as digits alone. */
  predicate IsDigitId(c: IdCell)
    ensures IsDigitId(c) <==> c.Num? && AllDigits(DecimalText(c.n))
  {
    if c.Num? then DecimalTextDigits(c.n); c.n >= 0 else false
  }

  /** A non-empty text of decimal digits only (the text test of `isdigit`). */
  predicate AllDigits(s: string) {
    |s| > 0 && forall i :: 0 <= i < |s| ==> '0' <= s[i] <= '9'
  }

  function DigitChar(d: nat): (c: char)
    requires d < 10
    ensures '0' <= c <= '9'
  {
    "0123456789"[d]
  }

  /** The decimal text of a natural number, without sign or leading zeros. */
  function NatText(n: nat): (s: string)
    ensures AllDigits(s)
  {
    if n < 10 then [DigitChar(n)] else NatText(n / 10) + [DigitChar(n % 10)]
  }

  /** `str(n)` for an integer: a minus sign before the digits of a negative number. */
  function DecimalText(n: int): string {
    if n < 0 then "-" + NatText(-n) else NatText(n)
  }

  lemma DecimalTextDigits(n: int)
    ensures AllDigits(DecimalText(n)) <==> n >= 0
  {
    if n < 0 {
      assert DecimalText(n)[0] == '-';
    }
  }

  /** The integer ids of the sheet (the set built with `astype(int)`). */
  function SheetIds(rows: seq<SheetRow>): (ids: set<int>)
    ensures forall k :: k in ids <==> exists i :: 0 <= i < |rows| && rows[i].id == Num(k)
  {
    set i | 0 <= i < |rows| && rows[i].id.Num? :: rows[i].id.n
  }

  /** Some id cell cannot be converted to an integer. */
  predicate HasNonIntegerId(rows: seq<SheetRow>)
    ensures !HasNonIntegerId(rows) ==> forall i :: 0 <= i < |rows| ==> rows[i].id.Num? && rows[i].id.n in SheetIds(rows)
  {
    exists i :: 0 <= i < |rows| && rows[i].id.Other?
  }

  /** No two rows carry the same integer id. */
  predicate DistinctNumIds(rows: seq<SheetRow>) {
    forall i, j :: 0 <= i < j < |rows| && rows[i].id.Num? ==> rows[i].id != rows[j].id
  }

  /**
   * A sheet row repeats its id only when the table lacks it: the only
   * repeat the script fails on, as the second insert breaks the primary key.
   */
  predicate NoRepeatedNewId(rows: seq<SheetRow>, snap: map<int, LocalRow>) {
    forall i, j :: 0 <= i < j < |rows| && IsDigitId(rows[i].id) && rows[i].id.n !in snap ==> rows[i].id != rows[j].id
  }

  /** No two rows carry the same id cell, integer or not. */
  predicate DistinctIds(rows: seq<SheetRow>)
    ensures DistinctIds(rows) ==> DistinctNumIds(rows)
    ensures DistinctIds(rows) ==> forall i, j :: 0 <= i < |rows| && 0 <= j < |rows| && rows[i].id == rows[j].id ==> i == j
  {
    forall i, j :: 0 <= i < j < |rows| ==> rows[i].id != rows[j].id
  }
}
