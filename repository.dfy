/** The generic SQL repository of repository/repository.go, without the
    database and without reflection: an entity is the sequence of its struct
    fields in declaration order, and each operation is modelled as the
    statement it hands to the database (query text, arguments and, for a
    row lookup, the scan destinations). */
module Repository {
  import opened Wrappers
  import opened Text

  /** A value held in an interface{}: nil, a Go string, a Go int, or a value
      of any other dynamic type (int64, a pointer, a struct, ...). */
  datatype Value = Nil | Str(s: string) | Int(n: int) | Other(typeName: string, repr: string)

  /** One struct field as reflection sees it. */
  datatype Field = Field(name: string, value: Value)

  /** A struct, its fields in declaration order (NumField is the length). */
  type Entity = seq<Field>

  /** A destination handed to Scan: a nil interface, or the address of the
      struct field with that index. */
  datatype Dest = NilDest | FieldAddr(index: nat)

  /** What an operation hands to the database: db.Exec with arguments, or
      db.QueryRow with arguments followed by row.Scan into destinations. */
  datatype Call =
    | Exec(query: string, args: seq<Value>)
    | QueryRowScan(query: string, args: seq<Value>, dests: seq<Dest>)

  datatype Repo = Repo(entityName: string, pk: string, columnFields: seq<string>)

  // ---------------------------------------------------------------------
  // Building blocks

  /** The "?" list of an INSERT: n question marks joined by ", ". */
  function Placeholders(n: nat): string {
    Join(seq(n, _ => "?"), ", ")
  }

  /** One "<column> = ?" per column, in column order. */
  function Assignments(cols: seq<string>): (a: seq<string>)
    ensures |a| == |cols|
  {
    seq(|cols|, i requires 0 <= i < |cols| => cols[i] + " = ?")
  }

  /** The SET list of an UPDATE: the assignments joined by ", ". */
  function UpdateFields(cols: seq<string>): string {
    Join(Assignments(cols), ", ")
  }

  /** getEntityValues: make with length NumField gives that many nils, and
      each field value is appended after them. */
  function EntityValues(entity: Entity): seq<Value> {
    seq(|entity|, _ => Nil) + seq(|entity|, i requires 0 <= i < |entity| => entity[i].value)
  }

  /** getPointerValues: as getEntityValues, with the fields' addresses. */
  function PointerValues(entity: Entity): seq<Dest> {
    seq(|entity|, _ => NilDest) + seq(|entity|, i requires 0 <= i < |entity| => FieldAddr(i))
  }

  /** FieldByName(name).Interface(): the value of the first field with that
      name; None where reflection yields the zero Value, whose Interface
      call panics. */
  function FieldByName(entity: Entity, name: string): (r: Option<Value>)
    ensures r.None? <==> forall k :: 0 <= k < |entity| ==> entity[k].name != name
    ensures r.Some? ==> exists k :: 0 <= k < |entity| && entity[k].name == name && entity[k].value == r.value
                          && forall j :: 0 <= j < k ==> entity[j].name != name
  {
    if entity == [] then None
    else if entity[0].name == name then Some(entity[0].value)
    else
      var r := FieldByName(entity[1..], name);
      assert forall k :: 1 <= k < |entity| ==> entity[k] == entity[1..][k - 1];
      r
  }

  // ---------------------------------------------------------------------
  // The loops, as the source writes them

  /** getPlaceholders: fills a slice of n strings with "?" and joins it. */
  method GetPlaceholders(n: nat) returns (s: string)
    ensures s == Placeholders(n)
  {
    var placeholders := new string[n];
    for i := 0 to n
      invariant forall k :: 0 <= k < i ==> placeholders[k] == "?"
    {
      placeholders[i] := "?";
    }
    assert placeholders[..] == seq(n, _ => "?");
    s := Join(placeholders[..], ", ");
  }

  /** getUpdateFields: one "<column> = ?" per column, in column order, joined. */
  method GetUpdateFields(r: Repo) returns (s: string)
    ensures s == UpdateFields(r.columnFields)
  {
    var fields := new string[|r.columnFields|];
    for i := 0 to |r.columnFields|
      invariant forall k :: 0 <= k < i ==> fields[k] == r.columnFields[k] + " = ?"
    {
      fields[i] := r.columnFields[i] + " = ?";
    }
    assert fields[..] == Assignments(r.columnFields);
    s := Join(fields[..], ", ");
  }

  /** getEntityValues: 2 * NumField arguments, NumField nils first and then
      the field values in declaration order. */
  method GetEntityValues(entity: Entity) returns (args: seq<Value>)
    ensures |args| == 2 * |entity|
    ensures forall k :: 0 <= k < |entity| ==> args[k] == Nil && args[|entity| + k] == entity[k].value
    ensures args == EntityValues(entity)
  {
    args := seq(|entity|, _ => Nil);
    for i := 0 to |entity|
      invariant |args| == |entity| + i
      invariant forall k :: 0 <= k < |entity| ==> args[k] == Nil
      invariant forall k :: 0 <= k < i ==> args[|entity| + k] == entity[k].value
    {
      args := args + [entity[i].value];
    }
  }

  /** getPointerValues: 2 * NumField destinations, NumField nils first and
      then the address of each field in declaration order. */
  method GetPointerValues(entity: Entity) returns (args: seq<Dest>)
    ensures |args| == 2 * |entity|
    ensures forall k :: 0 <= k < |entity| ==> args[k] == NilDest && args[|entity| + k] == FieldAddr(k)
    ensures args == PointerValues(entity)
  {
    args := seq(|entity|, _ => NilDest);
    for i := 0 to |entity|
      invariant |args| == |entity| + i
      invariant forall k :: 0 <= k < |entity| ==> args[k] == NilDest
      invariant forall k :: 0 <= k < i ==> args[|entity| + k] == FieldAddr(k)
    {
      args := args + [FieldAddr(i)];
    }
  }

  // ---------------------------------------------------------------------
  // The four query templates and the operations

  function FindByIdQuery(r: Repo): string {
    "SELECT " + Join(r.columnFields, ", ") + " FROM " + r.entityName + " WHERE " + r.pk + " = ?"
  }

  function CreateQuery(r: Repo): string {
    "INSERT INTO " + r.entityName + " (" + Join(r.columnFields, ", ") + ") VALUES ("
      + Placeholders(|r.columnFields|) + ")"
  }

  function UpdateQuery(r: Repo): string {
    "UPDATE " + r.entityName + " SET " + UpdateFields(r.columnFields) + " WHERE " + r.pk + " = ?"
  }

  function DeleteQuery(r: Repo): string {
    "DELETE FROM " + r.entityName + " WHERE " + r.pk + " = ?"
  }

  /** FindById: the SELECT with the id as its one argument, scanned into the
      entity's pointer values. */
  function FindById(r: Repo, id: Value, entity: Entity): Call {
    QueryRowScan(FindByIdQuery(r), [id], PointerValues(entity))
  }

  function Create(r: Repo, entity: Entity): Call {
    Exec(CreateQuery(r), EntityValues(entity))
  }

  /** update looks the primary key up again and appends it after the values. */
  function Update(r: Repo, entity: Entity): Call
    requires FieldByName(entity, r.pk).Some?
  {
    Exec(UpdateQuery(r), EntityValues(entity) + [FieldByName(entity, r.pk).value])
  }

  function Delete(r: Repo, id: Value): Call {
    Exec(DeleteQuery(r), [id])
  }

  /** The test of Save on the primary key's interface value: not nil, not
      the string "", not the int 0. Interface comparison checks the dynamic
      type first, so an int64 zero or an empty named string type passes. */
  predicate HasKey(v: Value) {
    match v
    case Nil => false
    case Str(s) => s != ""
    case Int(n) => n != 0
    case Other(_, _) => true
  }

  /** Save: update when the entity already has a key, create otherwise; None
      when the struct has no field named like the key and reflection panics. */
  function Save(r: Repo, entity: Entity): (c: Option<Call>)
    ensures c.None? <==> FieldByName(entity, r.pk).None?
    ensures c.Some? ==> c.value.Exec?
  {
    match FieldByName(entity, r.pk)
    case None => None
    case Some(pkValue) => if HasKey(pkValue) then Some(Update(r, entity)) else Some(Create(r, entity))
  }

  // ---------------------------------------------------------------------
  // Properties of the statements

  /** Placeholders(n) is "?, ?, ..., ?": a question mark at every third
      character, each followed by ", " except the last. */
  lemma {:induction false} PlaceholdersAt(n: nat, k: nat)
    requires k < |Placeholders(n)|
    ensures |Placeholders(n)| == 3 * n - 2
    ensures Placeholders(n)[k] == if k % 3 == 0 then '?' else if k % 3 == 1 then ',' else ' '
  {
    var parts := seq(n, _ => "?");
    if n == 1 {
      assert Placeholders(n) == "?";
    } else {
      assert n >= 2;
      assert parts[1..] == seq(n - 1, _ => "?");
      assert Placeholders(n) == "?, " + Placeholders(n - 1);
      if k >= 3 {
        PlaceholdersAt(n - 1, k - 3);
      } else {
        PlaceholdersAt(n - 1, 0);
      }
    }
  }

  /** Placeholders(n) is empty for n = 0 and holds exactly n question marks. */
  lemma PlaceholdersCount(n: nat)
    ensures n == 0 ==> Placeholders(n) == ""
    ensures CountChar(Placeholders(n), '?') == n
  {
    var parts := seq(n, _ => "?");
    forall k | 0 <= k < n ensures CountChar(parts[k], '?') == 1 {
      assert parts[k] == "?";
    }
    CountCharAllOnce(parts, '?');
    CountCharJoin(parts, ", ", '?');
  }

  /** No name the repository writes into its queries contains a '?'. */
  predicate Plain(r: Repo) {
    && '?' !in r.entityName
    && '?' !in r.pk
    && forall k :: 0 <= k < |r.columnFields| ==> '?' !in r.columnFields[k]
  }

  /** With plain column names, the SET list holds one '?' per column. */
  lemma UpdateFieldsCount(cols: seq<string>)
    requires forall k :: 0 <= k < |cols| ==> '?' !in cols[k]
    ensures CountChar(UpdateFields(cols), '?') == |cols|
  {
    var a := Assignments(cols);
    forall k | 0 <= k < |a| ensures CountChar(a[k], '?') == 1 {
      CountCharAbsent(cols[k], '?');
      CountCharAppend(cols[k], " = ?", '?');
      CountCharPrependAbsent(" = ", "?", '?');
      assert " = ?" == " = " + "?";
    }
    CountCharAllOnce(a, '?');
    CountCharJoin(a, ", ", '?');
  }

  lemma ColumnListCount(cols: seq<string>)
    requires forall k :: 0 <= k < |cols| ==> '?' !in cols[k]
    ensures CountChar(Join(cols, ", "), '?') == 0
  {
    CountCharAllAbsent(cols, '?');
    CountCharJoin(cols, ", ", '?');
  }

  /** The key test every query but the INSERT ends with adds one placeholder. */
  lemma KeyTestCount(head: string, p: string)
    requires '?' !in p
    ensures CountChar(head + " WHERE " + p + " = ?", '?') == CountChar(head, '?') + 1
  {
    CountCharAppendAbsent(head, " WHERE ", '?');
    CountCharAppendAbsent(head + " WHERE ", p, '?');
    CountCharAppend(head + " WHERE " + p, " = ?", '?');
    CountCharPrependAbsent(" = ", "?", '?');
    assert " = ?" == " = " + "?";
  }

  /** The SELECT of FindById holds one placeholder: the key. */
  lemma FindByIdPlaceholders(r: Repo)
    requires Plain(r)
    ensures CountChar(FindByIdQuery(r), '?') == 1
  {
    var cols, e := Join(r.columnFields, ", "), r.entityName;
    ColumnListCount(r.columnFields);
    CountCharPrependAbsent("SELECT ", cols, '?');
    CountCharAppendAbsent("SELECT " + cols, " FROM ", '?');
    CountCharAppendAbsent("SELECT " + cols + " FROM ", e, '?');
    KeyTestCount("SELECT " + cols + " FROM " + e, r.pk);
  }

  /** The DELETE holds one placeholder: the key. */
  lemma DeletePlaceholders(r: Repo)
    requires Plain(r)
    ensures CountChar(DeleteQuery(r), '?') == 1
  {
    CountCharAbsent(r.entityName, '?');
    CountCharPrependAbsent("DELETE FROM ", r.entityName, '?');
    KeyTestCount("DELETE FROM " + r.entityName, r.pk);
  }

  lemma InsertHeadCount(r: Repo)
    requires Plain(r)
    ensures CountChar("INSERT INTO " + r.entityName + " (" + Join(r.columnFields, ", "), '?') == 0
  {
    var cols, e := Join(r.columnFields, ", "), r.entityName;
    ColumnListCount(r.columnFields);
    CountCharAbsent(e, '?');
    CountCharPrependAbsent("INSERT INTO ", e, '?');
    CountCharAppendAbsent("INSERT INTO " + e, " (", '?');
    CountCharAppend("INSERT INTO " + e + " (", cols, '?');
  }

  /** The INSERT holds one placeholder per column. */
  lemma CreatePlaceholders(r: Repo)
    requires Plain(r)
    ensures CountChar(CreateQuery(r), '?') == |r.columnFields|
  {
    var head := "INSERT INTO " + r.entityName + " (" + Join(r.columnFields, ", ");
    var marks := Placeholders(|r.columnFields|);
    InsertHeadCount(r);
    PlaceholdersCount(|r.columnFields|);
    CountCharAppendAbsent(head, ") VALUES (", '?');
    CountCharAppend(head + ") VALUES (", marks, '?');
    CountCharAppendAbsent(head + ") VALUES (" + marks, ")", '?');
  }

  /** The UPDATE holds one placeholder per column and one for the key. */
  lemma UpdatePlaceholders(r: Repo)
    requires Plain(r)
    ensures CountChar(UpdateQuery(r), '?') == |r.columnFields| + 1
  {
    var e, fields := r.entityName, UpdateFields(r.columnFields);
    UpdateFieldsCount(r.columnFields);
    CountCharAbsent(e, '?');
    CountCharPrependAbsent("UPDATE ", e, '?');
    CountCharAppendAbsent("UPDATE " + e, " SET ", '?');
    CountCharAppend("UPDATE " + e + " SET ", fields, '?');
    KeyTestCount("UPDATE " + e + " SET " + fields, r.pk);
  }

  /** Argument counts of the lookups by key: one placeholder, one argument. */
  lemma KeyStatementsBalanced(r: Repo, id: Value, entity: Entity)
    requires Plain(r)
    ensures CountChar(FindById(r, id, entity).query, '?') == |FindById(r, id, entity).args| == 1
    ensures CountChar(Delete(r, id).query, '?') == |Delete(r, id).args| == 1
  {
    FindByIdPlaceholders(r);
    DeletePlaceholders(r);
  }

  /** getEntityValues and getPointerValues give 2 * NumField entries, so for
      a struct with one field per column the INSERT and the UPDATE receive
      more arguments than they have placeholders, and the row of FindById is
      scanned into more destinations than it has columns. */
  lemma FieldListsDoubled(r: Repo, id: Value, entity: Entity)
    requires Plain(r)
    requires |entity| == |r.columnFields| > 0
    ensures |Create(r, entity).args| == 2 * |r.columnFields|
    ensures CountChar(Create(r, entity).query, '?') < |Create(r, entity).args|
    ensures FieldByName(entity, r.pk).Some? ==>
      && |Update(r, entity).args| == 2 * |r.columnFields| + 1
      && CountChar(Update(r, entity).query, '?') < |Update(r, entity).args|
    ensures |FindById(r, id, entity).dests| == 2 * |r.columnFields|
  {
    CreatePlaceholders(r);
    UpdatePlaceholders(r);
  }

  /** Save issues the UPDATE, with the key appended after the values, when
      the key passes the test, and the INSERT with the values otherwise; the
      two queries differ, so the key test alone decides which one runs. */
  lemma SaveDispatch(r: Repo, entity: Entity)
    requires FieldByName(entity, r.pk).Some?
    ensures Save(r, entity).value.query == UpdateQuery(r) <==> HasKey(FieldByName(entity, r.pk).value)
    ensures Save(r, entity).value.query == CreateQuery(r) <==> !HasKey(FieldByName(entity, r.pk).value)
    ensures HasKey(FieldByName(entity, r.pk).value) ==>
      Save(r, entity).value.args == EntityValues(entity) + [FieldByName(entity, r.pk).value]
    ensures !HasKey(FieldByName(entity, r.pk).value) ==> Save(r, entity).value.args == EntityValues(entity)
  {
    var u1 := "UPDATE " + r.entityName;
    var u2 := u1 + " SET " + UpdateFields(r.columnFields);
    var u3 := u2 + " WHERE " + r.pk;
    assert u1[0] == 'U' && u2[0] == 'U' && u3[0] == 'U';
    assert UpdateQuery(r) == u3 + " = ?";
    var i1 := "INSERT INTO " + r.entityName;
    var i2 := i1 + " (" + Join(r.columnFields, ", ");
    var i3 := i2 + ") VALUES (" + Placeholders(|r.columnFields|);
    assert i1[0] == 'I' && i2[0] == 'I' && i3[0] == 'I';
    assert CreateQuery(r) == i3 + ")";
    assert UpdateQuery(r)[0] != CreateQuery(r)[0];
  }
}
