/**
 * The records every part of the application passes around: a normalised
 * course (the object `parseRow` builds), the mixed presentation list of
 * single courses and synergy groups, and the raw spreadsheet cell.
 */
module Records {

  import Sorting

  datatype Option<T> = None | Some(value: T)

  /** The two training providers. */
  datatype Source = ASPY | MAS

  /** The provider's name as the data carries it ('ASPY' or 'MAS'). */
  function SourceName(s: Source): string {
    match s
    case ASPY => "ASPY"
    case MAS => "MAS"
  }

  /**
   * One scheduled course. `startDate` is the start day as a day number (the
   * JavaScript code keeps a Date and subtracts milliseconds); `plazas` is the
   * number of free places, `totalPlazas` the capacity, `inscritos` the
   * enrolment and `estado` the status text. `modalidad` is the delivery-mode
   * cell as read (text, or whatever the sheet held) and `duracion` the
   * parsed classroom hours.
   */
  datatype Course = Course(
    id: string,
    code: string,
    source: Source,
    title: string,
    tematica: string,
    ubicacion: string,
    startDate: int,
    plazas: int,
    totalPlazas: int,
    inscritos: int,
    estado: string,
    hasSynergy: bool,
    modalidad: Cell,
    duracion: int)

  /**
   * An entry of the list the table renders: a course on its own, or a group
   * (`type: 'group'`) of courses proposed to be merged. `scenarioType` is
   * the capacity scenario the dashboard buckets groups by; nothing in the
   * modelled code sets it, so the engine's groups carry `None`.
   */
  datatype Item =
    | Single(course: Course)
    | Group(id: string, courses: seq<Course>, scenarioType: Option<string>)

  /** The courses an entry stands for (`item.type === 'group' ? item.courses : item`). */
  function Members(item: Item): (r: seq<Course>)
    ensures item.Single? ==> r == [item.course]
  {
    match item
    case Single(c) => [c]
    case Group(_, cs, _) => cs
  }

  /** `data.flatMap(item => item.type === 'group' ? item.courses : item)` */
  function Flatten(items: seq<Item>): seq<Course> {
    Sorting.FlatMap(items, Members)
  }

  /** A course is in the flattened list iff some entry stands for it. */
  lemma {:induction false} FlattenMembers(items: seq<Item>, c: Course)
    ensures c in Flatten(items) <==> exists i :: 0 <= i < |items| && c in Members(items[i])
  {
    if items != [] {
      var rest := items[1..];
      FlattenMembers(rest, c);
      assert Flatten(items) == Members(items[0]) + Flatten(rest);
      if exists i :: 0 <= i < |items| && c in Members(items[i]) {
        var i :| 0 <= i < |items| && c in Members(items[i]);
        if i > 0 {
          assert rest[i - 1] == items[i];
        }
      }
      if c in Flatten(rest) {
        var i :| 0 <= i < |rest| && c in Members(rest[i]);
        assert items[i + 1] == rest[i];
      }
    }
  }

  /** A spreadsheet cell as `sheet_to_json(..., { header: 1 })` yields it. */
  datatype Cell = Missing | Text(s: string) | Number(n: int)

  /** `row[i]`, which is `undefined` past the end of the row. */
  function CellAt(row: seq<Cell>, i: nat): Cell {
    if i < |row| then row[i] else Missing
  }

  /** JavaScript truthiness of a cell: `undefined`, `''` and `0` are falsy. */
  predicate Truthy(c: Cell) {
    match c
    case Missing => false
    case Text(s) => s != ""
    case Number(n) => n != 0
  }

  /** `a || b` on cells. */
  function OrElse(a: Cell, b: Cell): (r: Cell)
    ensures Truthy(a) ==> r == a
    ensures !Truthy(a) ==> r == b
    ensures r == a || r == b
    ensures Truthy(r) <==> Truthy(a) || Truthy(b)
  {
    if Truthy(a) then a else b
  }
}
