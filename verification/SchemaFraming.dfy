/** The schema fingerprint: which row lists it accepts and what it feeds the digest
    (src/schema_identity/mod.rs:195-267). */
module SchemaFraming {
  import opened Outcomes
  import opened Bytes

  /** UTF-8 text, as its bytes. */
  type Text = seq<byte>

  /** "product_metadata" and "sqlite_" in ASCII. */
  const METADATA: Text := [112, 114, 111, 100, 117, 99, 116, 95, 109, 101, 116, 97, 100, 97, 116, 97]
  const INTERNAL: Text := [115, 113, 108, 105, 116, 101, 95]

  datatype Key = Key(objectType: Text, name: Text, tableName: Text)

  datatype Row = Row(key: Key, sql: Text)

  datatype SchemaError = ExcludedObject | NotCanonical | Duplicate | FieldTooLarge

  // ---------- The order of keys ----------

  predicate ByteLess(a: byte, b: byte) { a < b }

  /** `str` compares by bytes. */
  predicate FieldBefore(a: Text, b: Text) { Before(ByteLess, a, b) }

  /** The derived order of `SchemaObjectKey`. */
  predicate KeyBefore(a: Key, b: Key) {
    || FieldBefore(a.objectType, b.objectType)
    || (a.objectType == b.objectType
        && (FieldBefore(a.name, b.name) || (a.name == b.name && FieldBefore(a.tableName, b.tableName))))
  }

  lemma KeyIrreflexive(a: Key)
    ensures !KeyBefore(a, a)
  {
    BeforeIrreflexive(ByteLess, a.objectType);
    BeforeIrreflexive(ByteLess, a.name);
    BeforeIrreflexive(ByteLess, a.tableName);
  }

  lemma FieldTransitive(a: Text, b: Text, c: Text)
    ensures FieldBefore(a, b) && FieldBefore(b, c) ==> FieldBefore(a, c)
  {
    if FieldBefore(a, b) && FieldBefore(b, c) { BeforeTransitive(ByteLess, a, b, c); }
  }

  lemma KeyTransitive(a: Key, b: Key, c: Key)
    requires KeyBefore(a, b) && KeyBefore(b, c)
    ensures KeyBefore(a, c)
  {
    hide FieldBefore;
    FieldTransitive(a.objectType, b.objectType, c.objectType);
    FieldTransitive(a.name, b.name, c.name);
    FieldTransitive(a.tableName, b.tableName, c.tableName);
  }

  // ---------- The check ----------

  predicate Excluded(row: Row) { row.key.name == METADATA || INTERNAL <= row.key.name }

  function Ascii(text: string): Text
    requires forall i :: 0 <= i < |text| ==> text[i] < '\U{80}'
  {
    seq(|text|, i requires 0 <= i < |text| => text[i] as int)
  }

  /** The names that are kept out of a schema. */
  lemma ExcludedExactly(row: Row)
    ensures Excluded(row) <==> row.key.name == Ascii("product_metadata") || Ascii("sqlite_") <= row.key.name
  {
    assert METADATA == Ascii("product_metadata") && INTERNAL == Ascii("sqlite_");
  }

  predicate Fits(text: Text) { |text| < Pow(256, 8) }

  predicate RowFits(row: Row) {
    Fits(row.key.objectType) && Fits(row.key.name) && Fits(row.key.tableName) && Fits(row.sql)
  }

  function RowError(previous: Option<Key>, row: Row): Option<SchemaError> {
    if Excluded(row) then Some(ExcludedObject)
    else if previous.Some? && KeyBefore(row.key, previous.value) then Some(NotCanonical)
    else if previous.Some? && row.key == previous.value then Some(Duplicate)
    else if !RowFits(row) then Some(FieldTooLarge)
    else None
  }

  function FirstError(previous: Option<Key>, rows: seq<Row>): Option<SchemaError>
    decreases |rows|
  {
    if rows == [] then None
    else if RowError(previous, rows[0]).Some? then RowError(previous, rows[0])
    else FirstError(Some(rows[0].key), rows[1..])
  }

  ghost predicate Canonical(rows: seq<Row>) {
    && (forall i :: 0 <= i < |rows| ==> !Excluded(rows[i]) && RowFits(rows[i]))
    && (forall i, j :: 0 <= i < j < |rows| ==> KeyBefore(rows[i].key, rows[j].key))
  }

  lemma KeyTotal(a: Key, b: Key)
    ensures a == b || KeyBefore(a, b) || KeyBefore(b, a)
  {
    if a.objectType != b.objectType {
      BeforeTotal(ByteLess, a.objectType, b.objectType);
    } else if a.name != b.name {
      BeforeTotal(ByteLess, a.name, b.name);
    } else if a.tableName != b.tableName {
      BeforeTotal(ByteLess, a.tableName, b.tableName);
    }
  }

  lemma KeyAsymmetric(a: Key, b: Key)
    requires KeyBefore(a, b)
    ensures a != b && !KeyBefore(b, a)
  {
    hide KeyBefore;
    KeyIrreflexive(a);
    if KeyBefore(b, a) { KeyTransitive(a, b, a); }
  }

  /** Comparing neighbours is enough: accepted rows have strictly increasing keys
      throughout, and every such list of admissible rows is accepted. */
  lemma {:induction false} AcceptedExact(previous: Option<Key>, rows: seq<Row>)
    ensures FirstError(previous, rows).None? <==>
              && Canonical(rows)
              && (previous.Some? ==> forall i :: 0 <= i < |rows| ==> KeyBefore(previous.value, rows[i].key))
    decreases |rows|
  {
    hide KeyBefore, Excluded, RowFits;
    if rows != [] {
      var key, rest := rows[0].key, rows[1..];
      AcceptedExact(Some(key), rest);
      assert forall i :: 0 <= i < |rest| ==> rest[i] == rows[i + 1];
      assert forall i :: 1 <= i < |rows| ==> rows[i] == rest[i - 1];
      if previous.Some? {
        KeyTotal(previous.value, key);
        if KeyBefore(previous.value, key) { KeyAsymmetric(previous.value, key); }
        forall i | 0 <= i < |rest| && KeyBefore(previous.value, key) && KeyBefore(key, rest[i].key)
          ensures KeyBefore(previous.value, rest[i].key)
        {
          KeyTransitive(previous.value, key, rest[i].key);
        }
      }
    }
  }

  /** What is wrong with the row behind an accepted list, by the name of its error. */
  ghost predicate Breaks(rows: seq<Row>, i: nat, error: SchemaError) {
    && i < |rows| && Canonical(rows[..i])
    && match error
       case ExcludedObject => rows[i].key.name == METADATA || INTERNAL <= rows[i].key.name
       case NotCanonical => i > 0 && KeyBefore(rows[i].key, rows[i - 1].key)
       case Duplicate => i > 0 && rows[i].key == rows[i - 1].key
       case FieldTooLarge => !RowFits(rows[i])
  }

  /** A refused list has a first bad row, and the error says what is wrong with it. */
  lemma {:induction false} ErrorNamed(rows: seq<Row>, k: nat)
    requires k <= |rows| && Canonical(rows[..k])
    ensures var previous := if k == 0 then None else Some(rows[k - 1].key);
            FirstError(previous, rows[k..]).Some? ==>
              exists i: nat :: k <= i && Breaks(rows, i, FirstError(previous, rows[k..]).value)
    decreases |rows| - k
  {
    hide KeyBefore, RowFits;
    var previous := if k == 0 then None else Some(rows[k - 1].key);
    if k < |rows| {
      var row := rows[k];
      assert rows[k..][1..] == rows[k + 1..];
      if RowError(previous, row).Some? {
        assert Breaks(rows, k, RowError(previous, row).value);
      } else {
        if k > 0 { KeyTotal(rows[k - 1].key, row.key); }
        CanonicalSnoc(rows[..k], row);
        assert rows[..k + 1] == rows[..k] + [row];
        ErrorNamed(rows, k + 1);
      }
    }
  }

  lemma CanonicalSnoc(rows: seq<Row>, row: Row)
    requires Canonical(rows) && !Excluded(row) && RowFits(row)
    requires rows == [] || KeyBefore(rows[|rows| - 1].key, row.key)
    ensures Canonical(rows + [row])
  {
    hide KeyBefore, RowFits, Excluded;
    forall i | 0 <= i < |rows| ensures KeyBefore(rows[i].key, row.key) {
      if i < |rows| - 1 { KeyTransitive(rows[i].key, rows[|rows| - 1].key, row.key); }
    }
  }

  // ---------- The framing ----------

  /** A field: its length in eight bytes, then the field. */
  function Frame(text: Text): seq<byte>
    requires Fits(text)
  {
    BigEndian(|text|, 8) + text
  }

  function RowFrames(row: Row): seq<byte>
    requires RowFits(row)
  {
    Frame(row.key.objectType) + (Frame(row.key.name) + (Frame(row.key.tableName) + Frame(row.sql)))
  }

  function Frames(rows: seq<Row>): seq<byte>
    requires forall i :: 0 <= i < |rows| ==> RowFits(rows[i])
  {
    if rows == [] then [] else RowFrames(rows[0]) + Frames(rows[1..])
  }

  lemma FrameFront(a: Text, b: Text, x: seq<byte>, y: seq<byte>)
    requires Fits(a) && Fits(b) && Frame(a) + x == Frame(b) + y
    ensures a == b && x == y
  {
    var left, right := Frame(a) + x, Frame(b) + y;
    assert left[..8] == BigEndian(|a|, 8) && right[..8] == BigEndian(|b|, 8);
    BigEndianInjective(|a|, |b|, 8);
    assert left[8..][..|a|] == a && right[8..][..|b|] == b;
    assert left[8 + |a|..] == x && right[8 + |b|..] == y;
  }

  lemma RowFront(a: Row, b: Row, x: seq<byte>, y: seq<byte>)
    requires RowFits(a) && RowFits(b) && RowFrames(a) + x == RowFrames(b) + y
    ensures a == b && x == y
  {
    hide Frame, Fits;
    var a3, b3 := Frame(a.sql) + x, Frame(b.sql) + y;
    var a2, b2 := Frame(a.key.tableName) + a3, Frame(b.key.tableName) + b3;
    var a1, b1 := Frame(a.key.name) + a2, Frame(b.key.name) + b2;
    assert RowFrames(a) + x == Frame(a.key.objectType) + a1;
    assert RowFrames(b) + y == Frame(b.key.objectType) + b1;
    FrameFront(a.key.objectType, b.key.objectType, a1, b1);
    FrameFront(a.key.name, b.key.name, a2, b2);
    FrameFront(a.key.tableName, b.key.tableName, a3, b3);
    FrameFront(a.sql, b.sql, x, y);
  }

  /** The digest input decodes uniquely. */
  lemma {:induction false} FramesInjective(a: seq<Row>, b: seq<Row>)
    requires forall i :: 0 <= i < |a| ==> RowFits(a[i])
    requires forall i :: 0 <= i < |b| ==> RowFits(b[i])
    requires Frames(a) == Frames(b)
    ensures a == b
    decreases |a|
  {
    hide RowFits, RowFrames;
    if a == [] || b == [] {
      if b != [] { RowNotEmpty(b[0]); }
      if a != [] { RowNotEmpty(a[0]); }
    } else {
      RowFront(a[0], b[0], Frames(a[1..]), Frames(b[1..]));
      FramesInjective(a[1..], b[1..]);
      assert a == [a[0]] + a[1..] && b == [b[0]] + b[1..];
    }
  }

  /** Where the digest input has what: four fields in this order, each behind its
      length, the most significant octet of it first. */
  lemma RowLayout(row: Row, rest: seq<byte>)
    requires RowFits(row)
    ensures var t, n, u, q := |row.key.objectType|, |row.key.name|, |row.key.tableName|, |row.sql|;
            var bytes := RowFrames(row) + rest;
            && |bytes| == 32 + t + n + u + q + |rest|
            && FieldAt(bytes, 0, row.key.objectType) && FieldAt(bytes, 8 + t, row.key.name)
            && FieldAt(bytes, 16 + t + n, row.key.tableName) && FieldAt(bytes, 24 + t + n + u, row.sql)
            && bytes[32 + t + n + u + q..] == rest
  {
    hide Frame, Fits, FieldAt;
    var bytes := RowFrames(row) + rest;
    var last := Frame(row.sql) + rest;
    var third := Frame(row.key.tableName) + last;
    var second := Frame(row.key.name) + third;
    var at := FrameAt(bytes, 0, row.key.objectType, second);
    at := FrameAt(bytes, at, row.key.name, third);
    at := FrameAt(bytes, at, row.key.tableName, last);
    at := FrameAt(bytes, at, row.sql, rest);
  }

  predicate FieldAt(bytes: seq<byte>, at: nat, field: Text) {
    && at + 8 + |field| <= |bytes| && FromBigEndian(bytes[at..at + 8]) == |field|
    && bytes[at + 8..at + 8 + |field|] == field
  }

  lemma FrameAt(bytes: seq<byte>, at: nat, field: Text, rest: seq<byte>) returns (end: nat)
    requires Fits(field) && at <= |bytes| && bytes[at..] == Frame(field) + rest
    ensures end == at + 8 + |field| <= |bytes| && bytes[end..] == rest && FieldAt(bytes, at, field)
  {
    FromBigEndianOfBigEndian(|field|, 8);
    end := at + 8 + |field|;
    assert bytes[at..at + 8] == bytes[at..][..8] == BigEndian(|field|, 8);
    assert bytes[at + 8..at + 8 + |field|] == bytes[at..][8..8 + |field|] == field;
    assert bytes[at..][8 + |field|..] == rest;
  }

  lemma RowNotEmpty(row: Row)
    requires RowFits(row)
    ensures |RowFrames(row)| >= 32
  {
  }

  /** A set of rows has at most one accepted order, so adapters that list the same
      rows feed the digest the same bytes. */
  lemma {:induction false} OneCanonicalOrder(a: seq<Row>, b: seq<Row>)
    requires Canonical(a) && Canonical(b)
    requires forall row :: row in a <==> row in b
    ensures a == b
    decreases |a|
  {
    hide KeyBefore, Excluded, RowFits;
    SameEmptiness(a, b);
    if a != [] {
      FirstIsLeast(a, b);
      assert a == [a[0]] + a[1..] && b == [b[0]] + b[1..];
      forall row ensures row in a[1..] <==> row in b[1..] {
        if row in a[1..] { NotTwice(a, row); assert row in b; }
        if row in b[1..] { NotTwice(b, row); assert row in a; }
      }
      OneCanonicalOrder(a[1..], b[1..]);
    }
  }

  lemma SameEmptiness(a: seq<Row>, b: seq<Row>)
    requires forall row :: row in a <==> row in b
    ensures a == [] <==> b == []
  {
    if a != [] { assert a[0] in b; }
    if b != [] { assert b[0] in a; }
  }

  lemma NotTwice(rows: seq<Row>, row: Row)
    requires Canonical(rows) && rows != [] && row in rows[1..]
    ensures row != rows[0]
  {
    hide KeyBefore, Excluded, RowFits;
    var i :| 0 <= i < |rows[1..]| && rows[1..][i] == row;
    assert rows[i + 1] == row;
    KeyIrreflexive(row.key);
  }

  lemma FirstIsLeast(a: seq<Row>, b: seq<Row>)
    requires Canonical(a) && Canonical(b) && a != [] && b != []
    requires forall row :: row in a <==> row in b
    ensures a[0] == b[0]
  {
    hide KeyBefore, Excluded, RowFits;
    assert a[0] in b && b[0] in a;
    var i :| 0 <= i < |b| && b[i] == a[0];
    var j :| 0 <= j < |a| && a[j] == b[0];
    if i > 0 && j > 0 { KeyAsymmetric(b[0].key, a[0].key); }
  }

  // ---------- The fingerprint ----------

  /** `sha` is SHA-256 in lower-case hexadecimal, as any function. */
  method SchemaFingerprint(rows: seq<Row>, sha: seq<byte> -> string) returns (r: Result<string, SchemaError>)
    ensures r.Err? <==> FirstError(None, rows).Some?
    ensures r.Err? ==> FirstError(None, rows) == Some(r.error)
    ensures r.Ok? ==> Canonical(rows) && r.value == sha(Frames(rows))
  {
    hide KeyBefore, RowFrames, Excluded, Canonical;
    var input: seq<byte> := [];
    var previous: Option<Key> := None;
    var i := 0;
    assert rows[0..] == rows;
    while i < |rows|
      invariant 0 <= i <= |rows|
      invariant forall k :: 0 <= k < i ==> RowFits(rows[k])
      invariant FirstError(None, rows) == FirstError(previous, rows[i..])
      invariant input == Frames(rows[..i])
    {
      var row := rows[i];
      assert rows[i..][1..] == rows[i + 1..];
      if row.key.name == METADATA || INTERNAL <= row.key.name {
        assert Excluded(row) by { ExcludedNames(row); }
        return Err(ExcludedObject);
      }
      assert !Excluded(row) by { ExcludedNames(row); }
      if previous.Some? {
        if KeyBefore(row.key, previous.value) { return Err(NotCanonical); }
        if row.key == previous.value { return Err(Duplicate); }
      }
      var framed := FrameFields(row);
      if framed.None? { return Err(FieldTooLarge); }
      FramesSnoc(rows[..i], row);
      assert rows[..i + 1] == rows[..i] + [row];
      input := input + framed.value;
      previous := Some(row.key);
      i := i + 1;
    }
    assert rows[..|rows|] == rows;
    AcceptedExact(None, rows);
    return Ok(sha(input));
  }

  lemma ExcludedNames(row: Row)
    ensures Excluded(row) <==> row.key.name == METADATA || INTERNAL <= row.key.name
  {
  }

  lemma {:induction false} FramesSnoc(rows: seq<Row>, row: Row)
    requires RowFits(row) && forall i :: 0 <= i < |rows| ==> RowFits(rows[i])
    ensures Frames(rows + [row]) == Frames(rows) + RowFrames(row)
    decreases |rows|
  {
    hide RowFits, RowFrames;
    if rows == [] {
      assert Frames([row]) == RowFrames(row) + Frames([]);
    } else {
      FramesSnoc(rows[1..], row);
      assert (rows + [row])[1..] == rows[1..] + [row];
    }
  }

  method FrameFields(row: Row) returns (r: Option<seq<byte>>)
    ensures r == if RowFits(row) then Some(RowFrames(row)) else None
  {
    hide BigEndian, Pow;
    WordSizes();
    var fields := [row.key.objectType, row.key.name, row.key.tableName, row.sql];
    var framed: seq<byte> := [];
    var i := 0;
    while i < 4
      invariant 0 <= i <= 4
      invariant forall k :: 0 <= k < i ==> Fits(fields[k])
      invariant framed == FieldFrames(fields[..i])
    {
      if |fields[i]| >= 0x1_0000_0000_0000_0000 {
        return None;
      }
      FieldFramesSnoc(fields[..i], fields[i]);
      assert fields[..i + 1] == fields[..i] + [fields[i]];
      framed := framed + BigEndian(|fields[i]|, 8) + fields[i];
      i := i + 1;
    }
    assert fields[..4] == fields;
    assert Fits(fields[0]) && Fits(fields[1]) && Fits(fields[2]) && Fits(fields[3]);
    FourFields(row);
    return Some(framed);
  }

  function FieldFrames(fields: seq<Text>): seq<byte>
    requires forall i :: 0 <= i < |fields| ==> Fits(fields[i])
  {
    if fields == [] then [] else FieldFrames(fields[..|fields| - 1]) + Frame(fields[|fields| - 1])
  }

  lemma FieldFramesSnoc(fields: seq<Text>, field: Text)
    requires Fits(field) && forall i :: 0 <= i < |fields| ==> Fits(fields[i])
    ensures FieldFrames(fields + [field]) == FieldFrames(fields) + Frame(field)
  {
    assert (fields + [field])[..|fields|] == fields;
  }

  lemma FourFields(row: Row)
    requires RowFits(row)
    ensures FieldFrames([row.key.objectType, row.key.name, row.key.tableName, row.sql]) == RowFrames(row)
  {
    hide Frame;
    var t, n, u, q := row.key.objectType, row.key.name, row.key.tableName, row.sql;
    FieldFramesSnoc([], t);
    assert [] + [t] == [t];
    FieldFramesSnoc([t], n);
    assert [t] + [n] == [t, n];
    FieldFramesSnoc([t, n], u);
    assert [t, n] + [u] == [t, n, u];
    FieldFramesSnoc([t, n, u], q);
    assert [t, n, u] + [q] == [t, n, u, q];
    assert ((Frame(t) + Frame(n)) + Frame(u)) + Frame(q) == RowFrames(row);
  }
}
