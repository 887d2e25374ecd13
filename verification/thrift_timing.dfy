/**
 * The Thrift-generated C++ struct `timing` (fields 1 `msgid`, 2 `nanosec`,
 * 3 `source`, plus the `__isset` flags) and its `read` / `write` methods.
 *
 * The protocol object is abstracted as a sequence of tokens, one per protocol
 * call: `readFieldBegin` / `writeFieldBegin` / `writeFieldStop` produce a
 * field header, `readI64`, `readString` and `skip` consume one value.  The
 * byte encodings of the binary and compact protocols are not modelled.  A
 * protocol call that finds no token, or a token of the wrong kind, stands
 * for the exception the protocol library throws on a truncated or corrupt
 * stream: `read` stops there and the members it has already assigned keep
 * their new values, as they do in C++.
 */
module ThriftTiming {

  /** The wire types of Thrift's `TType` enumeration. */
  datatype TType =
    | TStop | TVoid | TBool | TByte | TDouble | TI16 | TI32 | TU64 | TI64
    | TString | TStruct | TMap | TSet | TList | TUuid | TUtf16

  datatype Token =
    | FieldHeader(fid: int, ftype: TType)   // a field header, or the stop marker when ftype == TStop
    | I64Value(i: int)
    | StringValue(s: string)
    | OtherValue(vtype: TType)              // a value of any other type: only `skip` consumes it

  /** Whether `v` is a value that a field header of type `ftype` announces. */
  predicate ValueOfType(v: Token, ftype: TType) {
    match v
    case FieldHeader(_, _) => false
    case I64Value(_) => ftype == TI64
    case StringValue(_) => ftype == TString
    case OtherValue(t) => t == ftype && t != TI64 && t != TString && t != TStop
  }

  datatype Isset = Isset(msgid: bool, nanosec: bool, source: bool)

  /** The four members of the struct, as a value. */
  datatype TimingFields = TimingFields(msgid: int, nanosec: int, source: string, isset: Isset)

  datatype ReadError = EndOfInput | Malformed

  /** `xfer` counts the tokens the read consumed, the stop marker included. */
  datatype ReadResult = ReadOk(xfer: nat) | ReadFailed(error: ReadError)

  datatype ReadOutcome = ReadOutcome(fields: TimingFields, result: ReadResult)

  /** The tokens `write` emits for a struct holding `f`: fields 1, 2, 3 in order, then the stop marker. */
  function Encode(f: TimingFields): (ts: seq<Token>)
    ensures |ts| == 7 && ts[6] == FieldHeader(0, TStop)
  {
    [ FieldHeader(1, TI64), I64Value(f.msgid),
      FieldHeader(2, TI64), I64Value(f.nanosec),
      FieldHeader(3, TString), StringValue(f.source),
      FieldHeader(0, TStop) ]
  }

  /** The `switch (fid)` of `read`, applied to a value already checked to have the header's type. */
  function Dispatch(f: TimingFields, fid: int, v: Token): TimingFields {
    if fid == 1 && v.I64Value? then f.(msgid := v.i, isset := f.isset.(msgid := true))
    else if fid == 2 && v.I64Value? then f.(nanosec := v.i, isset := f.isset.(nanosec := true))
    else if fid == 3 && v.StringValue? then f.(source := v.s, isset := f.isset.(source := true))
    else f
  }

  /** Adds `k` tokens to the count of a successful read. */
  function Advance(o: ReadOutcome, k: nat): ReadOutcome {
    if o.result.ReadOk? then o.(result := ReadOk(o.result.xfer + k)) else o
  }

  /** What `read` does to a struct holding `f`, given the tokens the protocol will deliver. */
  function ReadFields(f: TimingFields, ts: seq<Token>): ReadOutcome
    decreases |ts|
  {
    if |ts| == 0 then ReadOutcome(f, ReadFailed(EndOfInput))
    else if !ts[0].FieldHeader? then ReadOutcome(f, ReadFailed(Malformed))
    else if ts[0].ftype == TStop then ReadOutcome(f, ReadOk(1))
    else if |ts| == 1 then ReadOutcome(f, ReadFailed(EndOfInput))
    else if !ValueOfType(ts[1], ts[0].ftype) then ReadOutcome(f, ReadFailed(Malformed))
    else Advance(ReadFields(Dispatch(f, ts[0].fid, ts[1]), ts[2..]), 2)
  }

  class TimingStruct {
    var msgid: int
    var nanosec: int
    var source: string
    var isset: Isset

    function Fields(): TimingFields
      reads this
    {
      TimingFields(msgid, nanosec, source, isset)
    }

    /** The generated default constructor: zero, zero, empty string, no field set. */
    constructor ()
      ensures Fields() == TimingFields(0, 0, "", Isset(false, false, false))
    {
      msgid, nanosec, source := 0, 0, "";
      isset := Isset(false, false, false);
    }

    /** The generated copy constructor copies all four members. */
    constructor Copy(other: TimingStruct)
      ensures Fields() == other.Fields()
    {
      msgid := other.msgid;
      nanosec := other.nanosec;
      source := other.source;
      isset := other.isset;
    }

    /** The generated copy assignment copies all four members (self-assignment included). */
    method Assign(other: TimingStruct)
      modifies this
      ensures Fields() == old(other.Fields())
    {
      msgid := other.msgid;
      nanosec := other.nanosec;
      source := other.source;
      isset := other.isset;
    }

    /** `timing::read`: the field loop, dispatching on field id and type until the stop marker. */
    method Read(tokens: seq<Token>) returns (r: ReadResult)
      modifies this
      ensures ReadOutcome(Fields(), r) == ReadFields(old(Fields()), tokens)
    {
      var pos := 0;
      while true
        invariant 0 <= pos <= |tokens|
        invariant ReadFields(old(Fields()), tokens) == Advance(ReadFields(Fields(), tokens[pos..]), pos)
        decreases |tokens| - pos
      {
        if pos == |tokens| {
          return ReadFailed(EndOfInput);
        }
        var header := tokens[pos];
        if !header.FieldHeader? {
          return ReadFailed(Malformed);
        }
        if header.ftype == TStop {
          return ReadOk(pos + 1);
        }
        if pos + 1 == |tokens| {
          return ReadFailed(EndOfInput);
        }
        var v := tokens[pos + 1];
        if !ValueOfType(v, header.ftype) {
          return ReadFailed(Malformed);
        }
        ghost var before := Fields();
        if header.fid == 1 {
          if header.ftype == TI64 {
            msgid := v.i;
            isset := isset.(msgid := true);
          }
        } else if header.fid == 2 {
          if header.ftype == TI64 {
            nanosec := v.i;
            isset := isset.(nanosec := true);
          }
        } else if header.fid == 3 {
          if header.ftype == TString {
            source := v.s;
            isset := isset.(source := true);
          }
        }
        assert Fields() == Dispatch(before, header.fid, v);
        assert tokens[pos..][2..] == tokens[pos + 2..];
        pos := pos + 2;
      }
    }

    /** `timing::write`: emits fields 1, 2 and 3 with their types, then the stop marker. */
    method Write() returns (tokens: seq<Token>)
      ensures tokens == Encode(Fields())
    {
      tokens := [FieldHeader(1, TI64), I64Value(msgid)];
      tokens := tokens + [FieldHeader(2, TI64), I64Value(nanosec)];
      tokens := tokens + [FieldHeader(3, TString), StringValue(source)];
      tokens := tokens + [FieldHeader(0, TStop)];
    }
  }

  /** The generated free function `swap` exchanges all four members of two structs. */
  method Swap(a: TimingStruct, b: TimingStruct)
    modifies a, b
    ensures a.Fields() == old(b.Fields()) && b.Fields() == old(a.Fields())
  {
    a.msgid, b.msgid := b.msgid, a.msgid;
    a.nanosec, b.nanosec := b.nanosec, a.nanosec;
    a.source, b.source := b.source, a.source;
    a.isset, b.isset := b.isset, a.isset;
  }

  /** Reading what `write` produced restores all three fields and sets all three flags,
      whatever the struct held before and whatever follows the stop marker. */
  lemma ReadAfterWrite(prior: TimingFields, f: TimingFields, rest: seq<Token>)
    ensures ReadFields(prior, Encode(f) + rest)
         == ReadOutcome(TimingFields(f.msgid, f.nanosec, f.source, Isset(true, true, true)), ReadOk(7))
  {
    var ts := Encode(f) + rest;
    var f1 := Dispatch(prior, 1, I64Value(f.msgid));
    var f2 := Dispatch(f1, 2, I64Value(f.nanosec));
    var f3 := Dispatch(f2, 3, StringValue(f.source));
    assert ts[2..][2..][2..] == [FieldHeader(0, TStop)] + rest;
    assert ReadFields(f3, ts[2..][2..][2..]) == ReadOutcome(f3, ReadOk(1));
    assert ReadFields(f2, ts[2..][2..]) == ReadOutcome(f3, ReadOk(3));
    assert ReadFields(f1, ts[2..]) == ReadOutcome(f3, ReadOk(5));
  }

  /** `read` never looks past the stop marker: once it succeeded on a prefix, anything may follow. */
  lemma {:induction false} ReadIgnoresTrailing(f: TimingFields, ts: seq<Token>, more: seq<Token>)
    requires ReadFields(f, ts).result.ReadOk?
    ensures ReadFields(f, ts).result.xfer <= |ts|
    ensures ReadFields(f, ts + more) == ReadFields(f, ts)
    decreases |ts|
  {
    if ts[0].ftype != TStop {
      var g := Dispatch(f, ts[0].fid, ts[1]);
      ReadIgnoresTrailing(g, ts[2..], more);
      assert (ts + more)[2..] == ts[2..] + more;
    }
  }

  /** The `default:` branch and the type-mismatch branches: a field that is unknown, or whose
      type is not the declared one, is skipped and changes no member and no flag. */
  lemma SkippedFieldChangesNothing(f: TimingFields, fid: int, ftype: TType, v: Token, rest: seq<Token>)
    requires ftype != TStop && ValueOfType(v, ftype)
    requires !(fid == 1 && ftype == TI64) && !(fid == 2 && ftype == TI64) && !(fid == 3 && ftype == TString)
    ensures ReadFields(f, [FieldHeader(fid, ftype), v] + rest) == Advance(ReadFields(f, rest), 2)
  {
    assert ([FieldHeader(fid, ftype), v] + rest)[2..] == rest;
  }

  /** The three fields `read` knows, each with the type its case accepts. */
  predicate KnownField(fid: int, ftype: TType) {
    (fid == 1 && ftype == TI64) || (fid == 2 && ftype == TI64) || (fid == 3 && ftype == TString)
  }

  /** A field id that appears twice in a row keeps the later value. */
  lemma RepeatedFieldOverwrites(f: TimingFields, fid: int, ftype: TType, v1: Token, v2: Token, rest: seq<Token>)
    requires KnownField(fid, ftype) && ValueOfType(v1, ftype) && ValueOfType(v2, ftype)
    ensures ReadFields(f, [FieldHeader(fid, ftype), v1, FieldHeader(fid, ftype), v2] + rest)
         == Advance(ReadFields(Dispatch(f, fid, v2), rest), 4)
  {
    var ts := [FieldHeader(fid, ftype), v1, FieldHeader(fid, ftype), v2] + rest;
    assert ts[2..] == [FieldHeader(fid, ftype), v2] + rest;
    assert ts[2..][2..] == rest;
  }

  /** Tokens that `read` consumes as whole fields, without reaching a stop marker or failing. */
  predicate WellFormedFields(ts: seq<Token>)
    decreases |ts|
  {
    |ts| == 0 ||
    (|ts| >= 2 && ts[0].FieldHeader? && ts[0].ftype != TStop && ValueOfType(ts[1], ts[0].ftype)
     && WellFormedFields(ts[2..]))
  }

  /** The members with field `fid`'s value and flag reset: what is left once that field is ignored. */
  function Forget(f: TimingFields, fid: int): TimingFields {
    if fid == 1 then f.(msgid := 0, isset := f.isset.(msgid := false))
    else if fid == 2 then f.(nanosec := 0, isset := f.isset.(nanosec := false))
    else if fid == 3 then f.(source := [], isset := f.isset.(source := false))
    else f
  }

  /** Two states that differ at most in field `fid` read the same once a later occurrence of
      `fid`, past well-formed fields, overwrites it. */
  lemma {:induction false} OverwrittenStatesAgree(g1: TimingFields, g2: TimingFields, fid: int, ftype: TType,
                                                  mid: seq<Token>, v2: Token, rest: seq<Token>)
    requires KnownField(fid, ftype) && ValueOfType(v2, ftype)
    requires Forget(g1, fid) == Forget(g2, fid) && WellFormedFields(mid)
    ensures ReadFields(g1, mid + [FieldHeader(fid, ftype), v2] + rest)
         == ReadFields(g2, mid + [FieldHeader(fid, ftype), v2] + rest)
    decreases |mid|
  {
    var tail := [FieldHeader(fid, ftype), v2] + rest;
    if mid == [] {
      assert mid + tail == tail;
      assert tail[2..] == rest;
      assert Dispatch(g1, fid, v2) == Dispatch(g2, fid, v2);
    } else {
      var h1, h2 := Dispatch(g1, mid[0].fid, mid[1]), Dispatch(g2, mid[0].fid, mid[1]);
      assert Forget(h1, fid) == Forget(h2, fid);
      OverwrittenStatesAgree(h1, h2, fid, ftype, mid[2..], v2, rest);
      assert (mid + tail)[2..] == mid[2..] + tail;
      assert mid + tail == mid + [FieldHeader(fid, ftype), v2] + rest;
      assert mid[2..] + tail == mid[2..] + [FieldHeader(fid, ftype), v2] + rest;
    }
  }

  /** The member ends up with the last occurrence of its field: an earlier occurrence that a later
      one overwrites, past any well-formed fields, only adds to the token count. */
  lemma LaterOccurrenceWins(f: TimingFields, fid: int, ftype: TType, v1: Token, mid: seq<Token>, v2: Token, rest: seq<Token>)
    requires KnownField(fid, ftype) && ValueOfType(v1, ftype) && ValueOfType(v2, ftype)
    requires WellFormedFields(mid)
    ensures ReadFields(f, [FieldHeader(fid, ftype), v1] + mid + [FieldHeader(fid, ftype), v2] + rest)
         == Advance(ReadFields(f, mid + [FieldHeader(fid, ftype), v2] + rest), 2)
  {
    var later := mid + [FieldHeader(fid, ftype), v2] + rest;
    var ts := [FieldHeader(fid, ftype), v1] + mid + [FieldHeader(fid, ftype), v2] + rest;
    assert ts == [FieldHeader(fid, ftype), v1] + later;
    assert ts[2..] == later;
    OverwrittenStatesAgree(Dispatch(f, fid, v1), f, fid, ftype, mid, v2, rest);
  }

  /** `read` only ever sets flags, and a member whose flag `read` left clear keeps its value. */
  lemma {:induction false} ReadOnlySetsFlags(f: TimingFields, ts: seq<Token>)
    ensures var g := ReadFields(f, ts).fields;
      && (f.isset.msgid ==> g.isset.msgid)
      && (f.isset.nanosec ==> g.isset.nanosec)
      && (f.isset.source ==> g.isset.source)
      && (!g.isset.msgid ==> g.msgid == f.msgid)
      && (!g.isset.nanosec ==> g.nanosec == f.nanosec)
      && (!g.isset.source ==> g.source == f.source)
    decreases |ts|
  {
    if |ts| >= 2 && ts[0].FieldHeader? && ts[0].ftype != TStop && ValueOfType(ts[1], ts[0].ftype) {
      ReadOnlySetsFlags(Dispatch(f, ts[0].fid, ts[1]), ts[2..]);
    }
  }
}
