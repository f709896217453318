/** The codecs vivgen emits for capability arguments and results, and the Ward's argument
    validation on top of them. */
module SchemaCodec {
  import opened Mus
  import opened Shape

  /** The field types of a capability schema. `TOther` stands for the types vivgen emits no
      code for. */
  datatype FieldType =
    | TString | TInt | TBool | TObject
    | TListString | TListObject | TListListString
    | TOther

  const TEXT := Text(MAX_PAYLOAD_BYTES)

  /** The layout of one argument field. An object is its raw JSON text. */
  function FieldShape(t: FieldType): Shape
  {
    match t
    case TString => TEXT
    case TInt => Int64
    case TBool => Flag
    case TObject => TEXT
    case TListString => List(TEXT)
    case TListObject => List(TEXT)
    case TListListString => List(List(TEXT))
    case TOther => Unit
  }

  /** An argument struct is its fields in schema order. */
  function ArgumentShape(fields: seq<FieldType>): Shape
  {
    if fields == [] then Unit else Pair(FieldShape(fields[0]), ArgumentShape(fields[1..]))
  }

  function Struct(vs: seq<Value>): Value
  {
    if vs == [] then VUnit else VPair(vs[0], Struct(vs[1..]))
  }

  predicate StructOf(fields: seq<FieldType>, vs: seq<Value>)
  {
    |fields| == |vs| && forall i :: 0 <= i < |fields| ==> Typed(FieldShape(fields[i]), vs[i])
  }

  predicate StructFits(fields: seq<FieldType>, vs: seq<Value>)
    requires StructOf(fields, vs)
  {
    forall i :: 0 <= i < |fields| ==> Fits(FieldShape(fields[i]), vs[i])
  }

  lemma {:induction false} StructIsValue(fields: seq<FieldType>, vs: seq<Value>)
    requires StructOf(fields, vs)
    ensures Typed(ArgumentShape(fields), Struct(vs))
    ensures Fits(ArgumentShape(fields), Struct(vs)) <==> StructFits(fields, vs)
  {
    hide FieldShape;
    if fields != [] {
      StructIsValue(fields[1..], vs[1..]);
      assert forall i :: 1 <= i < |fields| ==> fields[i] == fields[1..][i - 1] && vs[i] == vs[1..][i - 1];
    }
  }

  // ---- Arguments ------------------------------------------------------------

  function MarshalArgs(fields: seq<FieldType>, vs: seq<Value>): bytes
    requires StructOf(fields, vs)
  {
    StructIsValue(fields, vs);
    Encode(ArgumentShape(fields), Struct(vs))
  }

  function UnmarshalArgs(fields: seq<FieldType>, s: bytes): Parsed<Value>
  {
    Decode(ArgumentShape(fields), s)
  }

  /** For every schema: the emitted reader gives back what the emitted writer wrote and
      exactly what followed, if and only if no text exceeds the payload limit. An integer
      field covers all of int64. */
  lemma ArgsRoundTripIff(fields: seq<FieldType>, vs: seq<Value>, rest: bytes)
    requires StructOf(fields, vs)
    ensures UnmarshalArgs(fields, MarshalArgs(fields, vs) + rest) == Parsed(Struct(vs), rest)
            <==> StructFits(fields, vs)
  {
    StructIsValue(fields, vs);
    RoundTripIff(ArgumentShape(fields), Struct(vs), rest);
  }

  /** What the writer of one field appends. */
  function OnWire(t: FieldType, v: Value): bytes
    requires Typed(FieldShape(t), v)
  {
    match t
    case TString => EncodeString(v.data)
    case TInt => EncodeVarint(if v.n < 0 then v.n + TWO_64 else v.n)
    case TBool => [if v.b then 1 else 0]
    case TObject => EncodeString(v.data)
    case TListString => EncodeVarint(|v.items|) + TextsOnWire(v.items)
    case TListObject => EncodeVarint(|v.items|) + TextsOnWire(v.items)
    case TListListString => EncodeVarint(|v.items|) + RowsOnWire(v.items)
    case TOther => []
  }

  function TextsOnWire(vs: seq<Value>): bytes
    requires TypedAll(TEXT, vs)
  {
    if vs == [] then []
    else
      assert Typed(TEXT, vs[0]);
      EncodeString(vs[0].data) + TextsOnWire(vs[1..])
  }

  function RowsOnWire(vs: seq<Value>): bytes
    requires TypedAll(List(TEXT), vs)
  {
    if vs == [] then []
    else
      assert Typed(List(TEXT), vs[0]);
      EncodeVarint(|vs[0].items|) + TextsOnWire(vs[0].items) + RowsOnWire(vs[1..])
  }

  function FieldsOnWire(fields: seq<FieldType>, vs: seq<Value>): bytes
    requires StructOf(fields, vs)
  {
    if fields == [] then [] else OnWire(fields[0], vs[0]) + FieldsOnWire(fields[1..], vs[1..])
  }

  lemma {:induction false} TextsEncoded(vs: seq<Value>)
    requires TypedAll(TEXT, vs)
    ensures EncodeAll(TEXT, vs) == TextsOnWire(vs)
  {
    hide EncodeString;
    if vs != [] { TextsEncoded(vs[1..]); }
  }

  lemma {:induction false} RowsEncoded(vs: seq<Value>)
    requires TypedAll(List(TEXT), vs)
    ensures EncodeAll(List(TEXT), vs) == RowsOnWire(vs)
  {
    hide EncodeVarint;
    if vs != [] {
      TextsEncoded(vs[0].items);
      RowsEncoded(vs[1..]);
    }
  }

  lemma FieldEncoded(t: FieldType, v: Value)
    requires Typed(FieldShape(t), v)
    ensures Encode(FieldShape(t), v) == OnWire(t, v)
  {
    hide EncodeVarint, EncodeString;
    match t
    case TListString => TextsEncoded(v.items);
    case TListObject => TextsEncoded(v.items);
    case TListListString => RowsEncoded(v.items);
    case _ =>
  }

  /** The emitted writer appends the fields in schema order, and nothing else. */
  lemma {:induction false} ArgsLayout(fields: seq<FieldType>, vs: seq<Value>)
    requires StructOf(fields, vs)
    ensures MarshalArgs(fields, vs) == FieldsOnWire(fields, vs)
  {
    StructIsValue(fields, vs);
    if fields != [] {
      FieldEncoded(fields[0], vs[0]);
      hide FieldShape, OnWire;
      assert forall i :: 1 <= i < |fields| ==> fields[i] == fields[1..][i - 1] && vs[i] == vs[1..][i - 1];
      ArgsLayout(fields[1..], vs[1..]);
    }
  }

  // ---- Ward-side validation -------------------------------------------------

  type Schemas = map<bytes, seq<FieldType>>

  /** The arguments the Ward lets through: those of capabilities it does not know, and
      those that decode with nothing left over. */
  predicate ValidArgs(schemas: Schemas, capability: bytes, args: bytes)
  {
    capability in schemas ==>
      var p := UnmarshalArgs(schemas[capability], args);
      p.Parsed? && p.rest == []
  }

  method ValidateToolArgs(schemas: Schemas, capability: bytes, args: bytes) returns (ok: bool)
    ensures ok <==> ValidArgs(schemas, capability, args)
  {
    if capability !in schemas {
      return true;
    }
    var r := new Reader(args);
    var p := Unmarshal(r, ArgumentShape(schemas[capability]));
    if p.Fail? {
      return false;
    }
    ok := |r.data| == 0;
  }

  /** Every marshalled argument struct of a known capability is accepted. */
  lemma MarshalledAccepted(schemas: Schemas, capability: bytes, vs: seq<Value>)
    requires capability in schemas
    requires StructOf(schemas[capability], vs) && StructFits(schemas[capability], vs)
    ensures ValidArgs(schemas, capability, MarshalArgs(schemas[capability], vs))
  {
    var e := MarshalArgs(schemas[capability], vs);
    ArgsRoundTripIff(schemas[capability], vs, []);
    assert e + [] == e;
  }

  /** The accepted argument texts of one capability are prefix-free. So every proper prefix
      and every proper extension of a marshalled struct is rejected. */
  lemma AcceptedPrefixFree(schemas: Schemas, capability: bytes, a: bytes, more: bytes)
    requires capability in schemas && more != []
    ensures !(ValidArgs(schemas, capability, a) && ValidArgs(schemas, capability, a + more))
  {
    if ValidArgs(schemas, capability, a) {
      DecodeExtend(ArgumentShape(schemas[capability]), a, more);
    }
  }

  lemma CutOrExtendedRejected(schemas: Schemas, capability: bytes, vs: seq<Value>, n: nat, more: bytes)
    requires capability in schemas
    requires StructOf(schemas[capability], vs) && StructFits(schemas[capability], vs)
    requires n < |MarshalArgs(schemas[capability], vs)| && more != []
    ensures var e := MarshalArgs(schemas[capability], vs);
            !ValidArgs(schemas, capability, e[..n]) && !ValidArgs(schemas, capability, e + more)
  {
    var e := MarshalArgs(schemas[capability], vs);
    MarshalledAccepted(schemas, capability, vs);
    AcceptedPrefixFree(schemas, capability, e, more);
    AcceptedPrefixFree(schemas, capability, e[..n], e[n..]);
    assert e[..n] + e[n..] == e;
  }

  function Texts(row: seq<bytes>): (vs: seq<Value>)
    ensures |vs| == |row| && forall i :: 0 <= i < |row| ==> vs[i] == VBytes(row[i])
  {
    seq(|row|, i requires 0 <= i < |row| => VBytes(row[i]))
  }

  function Rows(rows: seq<seq<bytes>>): (vs: seq<Value>)
    ensures |vs| == |rows| && forall i :: 0 <= i < |rows| ==> vs[i] == VList(Texts(rows[i]))
  {
    seq(|rows|, i requires 0 <= i < |rows| => VList(Texts(rows[i])))
  }

  lemma TextsMore(row: seq<bytes>, t: bytes)
    ensures Texts(row + [t]) == Texts(row) + [VBytes(t)]
  {
  }

  lemma RowsMore(rows: seq<seq<bytes>>, row: seq<bytes>)
    ensures Rows(rows + [row]) == Rows(rows) + [VList(Texts(row))]
  {
    hide Texts;
  }

  /** The reader of matrix results has loops of its own. It accepts the same texts as
      validation against a schema of one matrix field, and finds the same rows. */
  method DecodeStringMatrix(data: bytes) returns (ok: bool, rows: seq<seq<bytes>>)
    ensures ok <==> ValidArgs(map[[] := [TListListString]], [], data)
    ensures ok ==> UnmarshalArgs([TListListString], data).value == Struct([VList(Rows(rows))])
  {
    hide Decode, DecodeAll, DecodeVarint, DecodeString, Texts, Rows;
    MatrixDecodes(data);
    rows := [];
    var r := new Reader(data);
    var rowsN := ReadVarintByte(r);
    if rowsN.Fail? {
      return false, [];
    }
    ghost var all := DecodeAll(List(TEXT), rowsN.value, r.data);
    NothingYet(all);
    for i := 0 to rowsN.value
      invariant Prepend(Rows(rows), DecodeAll(List(TEXT), rowsN.value - i, r.data)) == all
    {
      ghost var before := r.data;
      PrependStep(Rows(rows), List(TEXT), rowsN.value - i, before);
      RowDecodes(before);
      var colsN := ReadVarintByte(r);
      if colsN.Fail? {
        return false, [];
      }
      var row: seq<bytes> := [];
      ghost var cols := DecodeAll(TEXT, colsN.value, r.data);
      NothingYet(cols);
      for j := 0 to colsN.value
        invariant Prepend(Texts(row), DecodeAll(TEXT, colsN.value - j, r.data)) == cols
      {
        PrependStep(Texts(row), TEXT, colsN.value - j, r.data);
        TextDecodes(r.data);
        var col := ReadString(r, MAX_PAYLOAD_BYTES);
        if col.Fail? {
          return false, [];
        }
        TextsMore(row, col.value);
        row := row + [col.value];
      }
      NothingLeft(Texts(row), TEXT, r.data);
      RowsMore(rows, row);
      rows := rows + [row];
    }
    NothingLeft(Rows(rows), List(TEXT), r.data);
    ok := |r.data| == 0;
  }

  lemma MatrixDecodes(data: bytes)
    ensures var n := DecodeVarint(data);
            if n.Fail? then !ValidArgs(map[[] := [TListListString]], [], data)
            else
              var all := DecodeAll(List(TEXT), n.value, n.rest);
              && (ValidArgs(map[[] := [TListListString]], [], data) <==> all.Parsed? && all.rest == [])
              && (all.Parsed? ==>
                    var p := UnmarshalArgs([TListListString], data);
                    p.Parsed? && p.value == Struct([VList(all.value)]))
  {
    hide DecodeAll, DecodeVarint;
    assert ArgumentShape([TListListString]) == Pair(List(List(TEXT)), Unit);
  }

  lemma RowDecodes(s: bytes)
    ensures var n := DecodeVarint(s);
            var p := Decode(List(TEXT), s);
            if n.Fail? then p.Fail?
            else
              var row := DecodeAll(TEXT, n.value, n.rest);
              if row.Fail? then p.Fail? else p == Parsed(VList(row.value), row.rest)
  {
    hide DecodeAll, DecodeVarint;
  }

  lemma TextDecodes(s: bytes)
    ensures var t := DecodeString(s, MAX_PAYLOAD_BYTES);
            var p := Decode(TEXT, s);
            if t.Fail? then p.Fail? else p == Parsed(VBytes(t.value), t.rest)
  {
    hide DecodeString;
  }

  lemma NothingYet(p: Parsed<seq<Value>>)
    ensures Texts([]) == [] && Rows([]) == [] && Prepend([], p) == p
  {
    PrependNone(p);
  }

  lemma NothingLeft(vs: seq<Value>, elem: Shape, s: bytes)
    ensures Prepend(vs, DecodeAll(elem, 0, s)) == Parsed(vs, s)
  {
    assert vs + [] == vs;
  }

  // ---- Results --------------------------------------------------------------

  /** vivgen emits code for these result field types only. */
  predicate Emitted(t: FieldType)
  {
    t.TString? || t.TInt? || t.TBool?
  }

  /** The zero value of a result field's Go type. */
  function Zero(t: FieldType): (v: Value)
    ensures Typed(FieldShape(t), v)
  {
    match t
    case TString => VBytes([])
    case TInt => VInt(0)
    case TBool => VFlag(false)
    case TObject => VBytes([])
    case TOther => VUnit
    case _ => VList([])
  }

  /** A zero value is encoded in zero bytes, no field at all in none. */
  lemma ZeroIsZero(t: FieldType)
    ensures Encode(FieldShape(t), Zero(t)) == if t == TOther then [] else [0]
  {
  }

  function MarshalResult(fields: seq<FieldType>, vs: seq<Value>): bytes
    requires StructOf(fields, vs)
  {
    if fields == [] then []
    else
      (if Emitted(fields[0]) then Encode(FieldShape(fields[0]), vs[0]) else [])
      + MarshalResult(fields[1..], vs[1..])
  }

  /** Reading into a zeroed struct. */
  function UnmarshalResult(fields: seq<FieldType>, s: bytes): Parsed<seq<Value>>
  {
    if fields == [] then Parsed([], s)
    else
      var p := if Emitted(fields[0]) then Decode(FieldShape(fields[0]), s) else Parsed(Zero(fields[0]), s);
      if p.Fail? then Fail(p.error, p.rest)
      else MapParsed(UnmarshalResult(fields[1..], p.rest), (vs: seq<Value>) => [p.value] + vs)
  }

  /** What survives of a result: string, int and bool fields; all others are zero. */
  function Survives(fields: seq<FieldType>, vs: seq<Value>): seq<Value>
    requires StructOf(fields, vs)
  {
    seq(|fields|, i requires 0 <= i < |fields| =>
          match fields[i]
          case TString => vs[i]
          case TInt => vs[i]
          case TBool => vs[i]
          case _ => Zero(fields[i]))
  }

  predicate ResultFits(fields: seq<FieldType>, vs: seq<Value>)
    requires StructOf(fields, vs)
  {
    forall i :: 0 <= i < |fields| && fields[i].TString? ==> |vs[i].data| <= MAX_PAYLOAD_BYTES
  }

  lemma SurvivesMore(fields: seq<FieldType>, vs: seq<Value>)
    requires fields != [] && StructOf(fields, vs)
    ensures Survives(fields, vs) ==
            [if Emitted(fields[0]) then vs[0] else Zero(fields[0])] + Survives(fields[1..], vs[1..])
    ensures ResultFits(fields, vs) <==>
            (Emitted(fields[0]) ==> Fits(FieldShape(fields[0]), vs[0])) && ResultFits(fields[1..], vs[1..])
  {
    hide Zero, Typed;
    assert forall i :: 1 <= i < |fields| ==> fields[i] == fields[1..][i - 1] && vs[i] == vs[1..][i - 1];
    assert forall i :: 0 <= i < |fields| - 1 ==> fields[1..][i] == fields[i + 1] && vs[1..][i] == vs[i + 1];
  }

  /** A result struct comes back as what survives of it, and exactly when the text of every
      string field respects the limit. */
  lemma {:induction false} ResultRoundTripIff(fields: seq<FieldType>, vs: seq<Value>, rest: bytes)
    requires StructOf(fields, vs)
    ensures var p := UnmarshalResult(fields, MarshalResult(fields, vs) + rest);
            if ResultFits(fields, vs) then p == Parsed(Survives(fields, vs), rest) else p.Fail?
  {
    hide Encode, Decode, FieldShape, Fits, Zero, Emitted;
    if fields == [] {
      assert [] + rest == rest;
      assert Survives(fields, vs) == [];
    } else {
      var t := fields[0];
      var tail := MarshalResult(fields[1..], vs[1..]) + rest;
      var e := if Emitted(t) then Encode(FieldShape(t), vs[0]) else [];
      assert MarshalResult(fields, vs) + rest == e + tail;
      assert [] + tail == tail;
      if Emitted(t) { RoundTripIff(FieldShape(t), vs[0], tail); }
      ResultRoundTripIff(fields[1..], vs[1..], rest);
      assert forall i :: 1 <= i < |fields| ==> fields[i] == fields[1..][i - 1] && vs[i] == vs[1..][i - 1];
      SurvivesMore(fields, vs);
    }
  }

  function SurvivingRows(fields: seq<FieldType>, rows: seq<seq<Value>>): seq<seq<Value>>
    requires RowsOf(fields, rows)
  {
    seq(|rows|, i requires 0 <= i < |rows| => Survives(fields, rows[i]))
  }

  predicate RowsOf(fields: seq<FieldType>, rows: seq<seq<Value>>)
  {
    forall i :: 0 <= i < |rows| ==> StructOf(fields, rows[i])
  }

  predicate RowsFit(fields: seq<FieldType>, rows: seq<seq<Value>>)
    requires RowsOf(fields, rows)
  {
    forall i :: 0 <= i < |rows| ==> ResultFits(fields, rows[i])
  }

  function MarshalRows(fields: seq<FieldType>, rows: seq<seq<Value>>): bytes
    requires RowsOf(fields, rows)
  {
    if rows == [] then [] else MarshalResult(fields, rows[0]) + MarshalRows(fields, rows[1..])
  }

  function UnmarshalRows(fields: seq<FieldType>, n: nat, s: bytes): Parsed<seq<seq<Value>>>
  {
    if n == 0 then Parsed([], s)
    else
      var p := UnmarshalResult(fields, s);
      if p.Fail? then Fail(p.error, p.rest)
      else MapParsed(UnmarshalRows(fields, n - 1, p.rest), (rows: seq<seq<Value>>) => [p.value] + rows)
  }

  /** A `list<object>` result: the row count and the rows. */
  function MarshalResultList(fields: seq<FieldType>, rows: seq<seq<Value>>): bytes
    requires RowsOf(fields, rows)
  {
    EncodeVarint(|rows|) + MarshalRows(fields, rows)
  }

  function UnmarshalResultList(fields: seq<FieldType>, s: bytes): Parsed<seq<seq<Value>>>
  {
    var n := DecodeVarint(s);
    if n.Fail? then Fail(n.error, n.rest) else UnmarshalRows(fields, n.value, n.rest)
  }

  lemma ResultListRoundTripIff(fields: seq<FieldType>, rows: seq<seq<Value>>, rest: bytes)
    requires RowsOf(fields, rows) && |rows| < TWO_64
    ensures var p := UnmarshalResultList(fields, MarshalResultList(fields, rows) + rest);
            if RowsFit(fields, rows)
            then p == Parsed(SurvivingRows(fields, rows), rest)
            else p.Fail?
  {
    assert MarshalResultList(fields, rows) + rest == EncodeVarint(|rows|) + (MarshalRows(fields, rows) + rest);
    VarintRoundTrip(|rows|, MarshalRows(fields, rows) + rest);
    RowsRoundTripIff(fields, rows, rest);
  }

  lemma {:induction false} RowsRoundTripIff(fields: seq<FieldType>, rows: seq<seq<Value>>, rest: bytes)
    requires RowsOf(fields, rows)
    ensures var p := UnmarshalRows(fields, |rows|, MarshalRows(fields, rows) + rest);
            if RowsFit(fields, rows)
            then p == Parsed(SurvivingRows(fields, rows), rest)
            else p.Fail?
  {
    hide MarshalResult, UnmarshalResult, Survives, StructOf, UnmarshalRows, SurvivingRows, RowsFit, ResultFits;
    if rows == [] {
      assert [] + rest == rest;
      NoRows(fields, rest);
    } else {
      var e, tail := MarshalResult(fields, rows[0]), MarshalRows(fields, rows[1..]) + rest;
      assert MarshalRows(fields, rows) + rest == e + tail;
      RowsCons(fields, rows);
      ResultRoundTripIff(fields, rows[0], tail);
      RowsRoundTripIff(fields, rows[1..], rest);
      RowsStep(fields, |rows| - 1, e + tail);
    }
  }

  lemma RowsCons(fields: seq<FieldType>, rows: seq<seq<Value>>)
    requires rows != [] && RowsOf(fields, rows)
    ensures RowsOf(fields, rows[1..])
    ensures RowsFit(fields, rows) <==> ResultFits(fields, rows[0]) && RowsFit(fields, rows[1..])
    ensures SurvivingRows(fields, rows) == [Survives(fields, rows[0])] + SurvivingRows(fields, rows[1..])
  {
    hide StructOf, ResultFits, Survives;
    assert forall i :: 1 <= i < |rows| ==> rows[i] == rows[1..][i - 1];
    assert forall i :: 0 <= i < |rows| - 1 ==> rows[1..][i] == rows[i + 1];
  }

  lemma NoRows(fields: seq<FieldType>, s: bytes)
    ensures UnmarshalRows(fields, 0, s) == Parsed([], s) && RowsFit(fields, []) && SurvivingRows(fields, []) == []
  {
  }

  lemma RowsStep(fields: seq<FieldType>, n: nat, s: bytes)
    ensures var p := UnmarshalResult(fields, s);
            if p.Fail? then UnmarshalRows(fields, n + 1, s).Fail?
            else
              var more := UnmarshalRows(fields, n, p.rest);
              if more.Fail? then UnmarshalRows(fields, n + 1, s).Fail?
              else UnmarshalRows(fields, n + 1, s) == Parsed([p.value] + more.value, more.rest)
  {
    hide UnmarshalResult;
  }
}
