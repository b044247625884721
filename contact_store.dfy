/** The contact record and the behaviour the application relies on from the
    `contacts` table behind the ORM: a table is the sequence of its rows, a
    query selects the rows satisfying a where clause and orders them newest
    first, and create, update and delete act on the row with a given id. */
module ContactStore {
  import opened Js

  /** The `Contact` record. `firstName` is a required string; every other
      text field may be null. `createdAt` is a timestamp in milliseconds. */
  datatype Contact = Contact(
    id: int,
    uid: Option<string>,
    firstName: string,
    lastName: Option<string>,
    phoneNumber: Option<string>,
    email: Option<string>,
    company: Option<string>,
    jobTitle: Option<string>,
    notes: Option<string>,
    profileImageUrl: Option<string>,
    createdAt: Option<int>)

  type Table = seq<Contact>

  // ---------------------------------------------------------------------
  // where clauses

  /** The where clauses the application builds: no restriction, or "at
      least one of the seven searchable fields contains the text, ignoring
      case". */
  datatype Where = Everything | AnyFieldContains(text: string)

  /** The seven searchable fields, in the order the clause lists them. */
  function SearchFields(c: Contact): seq<Option<string>> {
    [Some(c.firstName), c.lastName, c.phoneNumber, c.email, c.company, c.jobTitle, c.notes]
  }

  /** A `contains … insensitive` condition on one field; a NULL field never
      satisfies it. */
  predicate FieldContains(field: Option<string>, text: string) {
    field.Some? && IncludesIgnoringCase(field.value, text)
  }

  predicate Satisfies(c: Contact, w: Where) {
    match w
    case Everything => true
    case AnyFieldContains(text) =>
      exists k :: 0 <= k < |SearchFields(c)| && FieldContains(SearchFields(c)[k], text)
  }

  /** The rows satisfying `w`, in table order: each row occurs as often as in
      the table when it satisfies `w`, and not at all otherwise. */
  function Select(t: Table, w: Where): (r: Table)
    ensures forall c :: multiset(r)[c] == if Satisfies(c, w) then multiset(t)[c] else 0
  {
    if t == [] then []
    else
      assert t == [t[0]] + t[1..];
      (if Satisfies(t[0], w) then [t[0]] else []) + Select(t[1..], w)
  }

  // ---------------------------------------------------------------------
  // orderBy: { created_at: 'desc' }

  /** `a` may come before `b` in a descending order of creation times. A NULL
      creation time sorts first, as PostgreSQL orders NULLs under DESC. */
  predicate AtLeastAsNew(a: Contact, b: Contact) {
    a.createdAt.None? || (b.createdAt.Some? && a.createdAt.value >= b.createdAt.value)
  }

  predicate NewestFirst(t: Table) {
    forall i, j :: 0 <= i < j < |t| ==> AtLeastAsNew(t[i], t[j])
  }

  /** Ordering by creation time is transitive. */
  lemma AtLeastAsNewTransitive(a: Contact, b: Contact, d: Contact)
    requires AtLeastAsNew(a, b) && AtLeastAsNew(b, d)
    ensures AtLeastAsNew(a, d)
  {
  }

  /** A row at least as new as the first of a sorted table can go in front. */
  lemma ConsNewestFirst(x: Contact, t: Table)
    requires NewestFirst(t)
    requires t != [] ==> AtLeastAsNew(x, t[0])
    ensures NewestFirst([x] + t)
  {
    var r := [x] + t;
    forall i, j | 0 <= i < j < |r| ensures AtLeastAsNew(r[i], r[j]) {
      if i == 0 && j > 1 {
        AtLeastAsNewTransitive(x, t[0], t[j - 1]);
      }
    }
  }

  /** Inserts `c` before the first row it is at least as new as. */
  function InsertByAge(c: Contact, t: Table): (r: Table)
    ensures multiset(r) == multiset(t) + multiset{c}
    ensures r != [] && (r[0] == c || (t != [] && r[0] == t[0]))
  {
    if t == [] then [c]
    else if AtLeastAsNew(c, t[0]) then [c] + t
    else
      assert t == [t[0]] + t[1..];
      [t[0]] + InsertByAge(c, t[1..])
  }

  /** Inserting into a table ordered newest first keeps it so. */
  lemma {:induction false} InsertByAgeKeepsOrder(c: Contact, t: Table)
    requires NewestFirst(t)
    ensures NewestFirst(InsertByAge(c, t))
  {
    if t == [] {
    } else if AtLeastAsNew(c, t[0]) {
      ConsNewestFirst(c, t);
    } else {
      var tail := t[1..];
      assert NewestFirst(tail) by {
        forall i, j | 0 <= i < j < |tail| ensures AtLeastAsNew(tail[i], tail[j]) {
          assert tail[i] == t[i + 1] && tail[j] == t[j + 1];
        }
      }
      InsertByAgeKeepsOrder(c, tail);
      var rest := InsertByAge(c, tail);
      ConsNewestFirst(t[0], rest);
    }
  }

  /** The rows of `t` ordered newest first (an insertion sort). */
  function SortNewestFirst(t: Table): (r: Table)
    ensures multiset(r) == multiset(t)
    ensures NewestFirst(r)
  {
    if t == [] then []
    else
      assert t == [t[0]] + t[1..];
      InsertByAgeKeepsOrder(t[0], SortNewestFirst(t[1..]));
      InsertByAge(t[0], SortNewestFirst(t[1..]))
  }

  /** `findMany({ where: w, orderBy: { created_at: 'desc' } })`: the rows
      satisfying `w`, each as often as in the table, newest first. */
  function FindMany(t: Table, w: Where): (r: Table)
    ensures NewestFirst(r)
    ensures forall c :: multiset(r)[c] == if Satisfies(c, w) then multiset(t)[c] else 0
  {
    SortNewestFirst(Select(t, w))
  }

  // ---------------------------------------------------------------------
  // rows by id

  predicate HasId(t: Table, id: int) {
    exists k :: 0 <= k < |t| && t[k].id == id
  }

  /** `findUnique({ where: { id } })`: the row with that id, or null. */
  function FindUnique(t: Table, id: int): (r: Option<Contact>)
    ensures r.Some? <==> HasId(t, id)
    ensures r.Some? ==> r.value in t && r.value.id == id
  {
    if t == [] then None
    else if t[0].id == id then Some(t[0])
    else
      var r := FindUnique(t[1..], id);
      assert HasId(t, id) <==> HasId(t[1..], id) by {
        if HasId(t, id) {
          var k :| 0 <= k < |t| && t[k].id == id;
          assert t[1..][k - 1].id == id;
        }
        if HasId(t[1..], id) {
          var k :| 0 <= k < |t[1..]| && t[1..][k].id == id;
          assert t[k + 1].id == id;
        }
      }
      r
  }

  /** The fields an update writes. There is no `id`, `uid` or `createdAt`
      among them. */
  datatype UpdateData = UpdateData(
    firstName: string,
    lastName: Option<string>,
    phoneNumber: Option<string>,
    email: Option<string>,
    company: Option<string>,
    jobTitle: Option<string>,
    notes: Option<string>,
    profileImageUrl: Option<string>)

  function ApplyUpdate(c: Contact, d: UpdateData): Contact {
    c.(firstName := d.firstName, lastName := d.lastName, phoneNumber := d.phoneNumber,
       email := d.email, company := d.company, jobTitle := d.jobTitle, notes := d.notes,
       profileImageUrl := d.profileImageUrl)
  }

  /** `update({ where: { id }, data })`: fails (None) when no row has that
      id; otherwise the row with that id takes the new field values and
      keeps its `id`, `uid` and `createdAt`, and every other row is left as
      it was. */
  function UpdateById(t: Table, id: int, d: UpdateData): (r: Option<Table>)
    ensures r.None? <==> !HasId(t, id)
    ensures r.Some? ==> |r.value| == |t|
    ensures r.Some? ==> forall k :: 0 <= k < |t| ==>
      r.value[k].id == t[k].id && r.value[k].uid == t[k].uid && r.value[k].createdAt == t[k].createdAt
    ensures r.Some? ==> forall k :: 0 <= k < |t| ==>
      r.value[k] == if t[k].id == id then ApplyUpdate(t[k], d) else t[k]
  {
    if HasId(t, id) then
      Some(seq(|t|, k requires 0 <= k < |t| => if t[k].id == id then ApplyUpdate(t[k], d) else t[k]))
    else None
  }

  /** `delete({ where: { id } })`: fails (None) when no row has that id;
      otherwise exactly the rows with that id are gone and every other row
      is kept as often as it was there. */
  function DeleteById(t: Table, id: int): (r: Option<Table>)
    ensures r.None? <==> !HasId(t, id)
    ensures r.Some? ==> !HasId(r.value, id)
    ensures r.Some? ==> forall c :: multiset(r.value)[c] == if c.id == id then 0 else multiset(t)[c]
  {
    if HasId(t, id) then Some(WithoutId(t, id)) else None
  }

  function WithoutId(t: Table, id: int): (r: Table)
    ensures forall c :: multiset(r)[c] == if c.id == id then 0 else multiset(t)[c]
  {
    if t == [] then []
    else
      assert t == [t[0]] + t[1..];
      (if t[0].id == id then [] else [t[0]]) + WithoutId(t[1..], id)
  }
}
