/**
 * One row of the `user_stats` table and the calendar arithmetic of the weekly
 * free quota (main.py). Dates are day numbers; day 0 is a Monday.
 */
module Stats {
  import opened Wrappers

  /** The conversion categories, one per `free_<type>` column. */
  datatype Category = Docx | Pptx | Excel | Txt

  /** The `<type>` in the column name `free_<type>`. */
  function FileType(c: Category): string
  {
    match c
    case Docx => "docx"
    case Pptx => "pptx"
    case Excel => "excel"
    case Txt => "txt"
  }

  /** The category whose column `free_<fileType>` the free path clears; `None` for any other spelling. */
  function CategoryOf(fileType: string): (c: Option<Category>)
    ensures c.Some? ==> FileType(c.value) == fileType
    ensures forall d: Category :: FileType(d) == fileType ==> c == Some(d)
  {
    if fileType == "docx" then Some(Docx)
    else if fileType == "pptx" then Some(Pptx)
    else if fileType == "excel" then Some(Excel)
    else if fileType == "txt" then Some(Txt)
    else None
  }

  /** PostgreSQL's INT and BIGINT: a value outside the range makes the statement fail. */
  predicate IsInt32(x: int)
  {
    -0x8000_0000 <= x < 0x8000_0000
  }

  predicate IsInt64(x: int)
  {
    -0x8000_0000_0000_0000 <= x < 0x8000_0000_0000_0000
  }

  /** A `user_stats` row (the key, `user_id`, is the map key of the table). */
  datatype Stat = Stat(
    weekStart: int,
    freeDocx: bool,
    freePptx: bool,
    freeExcel: bool,
    freeTxt: bool,
    balance: int,
    referralBalance: int,
    totalPaidConversions: int,
    totalSpent: int)
  {
    /** Whether the free conversion of category `c` is still available this week. */
    function Free(c: Category): bool
    {
      match c
      case Docx => freeDocx
      case Pptx => freePptx
      case Excel => freeExcel
      case Txt => freeTxt
    }

    /** The row with the flag of `c` set to `b`. */
    function WithFree(c: Category, b: bool): (s: Stat)
      ensures s.Free(c) == b
      ensures forall d :: d != c ==> s.Free(d) == Free(d)
      ensures s.weekStart == weekStart && SameMoney(s)
    {
      match c
      case Docx => this.(freeDocx := b)
      case Pptx => this.(freePptx := b)
      case Excel => this.(freeExcel := b)
      case Txt => this.(freeTxt := b)
    }

    predicate AllFree()
    {
      freeDocx && freePptx && freeExcel && freeTxt
    }

    /** The monetary columns and counters agree. */
    predicate SameMoney(other: Stat)
    {
      balance == other.balance && referralBalance == other.referralBalance &&
      totalPaidConversions == other.totalPaidConversions && totalSpent == other.totalSpent
    }

    /** The four flags agree. */
    predicate SameFlags(other: Stat)
    {
      forall c: Category :: Free(c) == other.Free(c)
    }
  }

  /** A freshly inserted row: the given week, the column defaults (flags TRUE, zero money). */
  function NewRow(weekStart: int): Stat
  {
    Stat(weekStart, true, true, true, true, 0, 0, 0, 0)
  }

  /** The ON CONFLICT update: a new week with every flag TRUE; money and counters kept. */
  function Renewed(s: Stat, weekStart: int): Stat
  {
    s.(weekStart := weekStart, freeDocx := true, freePptx := true, freeExcel := true, freeTxt := true)
  }

  /** `date.weekday()`: 0 for Monday up to 6 for Sunday. */
  function Weekday(day: int): (w: int)
    ensures 0 <= w < 7
  {
    day % 7
  }

  /** The Monday of the week holding `today`. */
  function StartOfWeek(today: int): (monday: int)
    ensures Weekday(monday) == 0
    ensures monday <= today < monday + 7
  {
    today - Weekday(today)
  }

  /** Only one Monday lies within the six days before `today`. */
  lemma StartOfWeekUnique(today: int, monday: int)
    requires Weekday(monday) == 0 && monday <= today < monday + 7
    ensures monday == StartOfWeek(today)
  {
    var m := StartOfWeek(today);
    var q, q' := monday / 7, m / 7;
    assert monday == 7 * q;
    assert m == 7 * q';
  }

  /** Later days never fall in an earlier week. */
  lemma StartOfWeekMonotonic(d1: int, d2: int)
    requires d1 <= d2
    ensures StartOfWeek(d1) <= StartOfWeek(d2)
  {
  }
}
