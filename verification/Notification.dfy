/** The length-value notification parser of src/BLE/ble_response_handler.c. */
module Notification {
  import opened Bytes

  datatype Error = InvalidArgument | BadMessage | MessageSize

  /** The fields read and the index after them, or the error code. */
  datatype Parsed = Ok(fields: seq<seq<Byte>>, end: nat) | Err(error: Error)

  const FIELDS: nat := 4

  // ---------------------------------------------------------------- the format

  predicate Encodable(fields: seq<seq<Byte>>) {
    forall k :: 0 <= k < |fields| ==> |fields[k]| < 256
  }

  /** A length byte and that many bytes, field after field. */
  function Encode(fields: seq<seq<Byte>>): seq<Byte>
    requires Encodable(fields)
  {
    if fields == [] then [] else [|fields[0]|] + fields[0] + Encode(fields[1..])
  }

  // ---------------------------------------------------------------- what the parser reads

  function ReadFields(s: seq<Byte>, idx: nat, n: nat): (r: Parsed)
    ensures r.Ok? ==> |r.fields| == n && (idx <= |s| ==> r.end <= |s|)
    decreases n
  {
    if n == 0 then Ok([], idx)
    else if idx >= |s| then Err(BadMessage)
    else
      var next := idx + 1 + s[idx];
      if next > |s| then Err(MessageSize)
      else match ReadFields(s, next, n - 1)
        case Err(e) => Err(e)
        case Ok(fields, end) => Ok([s[idx + 1..next]] + fields, end)
  }

  function Parse(s: seq<Byte>): Parsed {
    if |s| < 5 then Err(InvalidArgument) else ReadFields(s, 1, FIELDS)
  }

  lemma SliceOfSlice(s: seq<Byte>, from: nat, to: nat, i: nat, j: nat)
    requires from <= to <= |s| && i <= j <= to - from
    ensures s[from..to][i..j] == s[from + i..from + j]
  {
    var a, b := s[from..to][i..j], s[from + i..from + j];
    assert |a| == |b| && forall k :: 0 <= k < |a| ==> a[k] == s[from + i + k] == b[k];
  }

  /** The first field of an encoding that stands at idx. */
  lemma FirstField(s: seq<Byte>, idx: nat, fields: seq<seq<Byte>>, end: nat)
    requires fields != [] && Encodable(fields) && idx <= end <= |s| && s[idx..end] == Encode(fields)
    ensures idx < end && idx + 1 + s[idx] <= end && s[idx] == |fields[0]|
    ensures s[idx + 1..idx + 1 + s[idx]] == fields[0]
    ensures s[idx + 1 + s[idx]..end] == Encode(fields[1..])
  {
    var whole := s[idx..end];
    var n := |fields[0]|;
    assert whole[0] == n && s[idx] == whole[0];
    assert whole[1..1 + n] == fields[0] && whole[1 + n..] == Encode(fields[1..]);
    SliceOfSlice(s, idx, end, 1, 1 + n);
    SliceOfSlice(s, idx, end, 1 + n, end - idx);
  }

  /** Reading succeeds with these fields exactly if their encoding stands there. */
  lemma {:induction false} ReadsIff(s: seq<Byte>, idx: nat, n: nat, fields: seq<seq<Byte>>, end: nat)
    requires idx <= |s|
    ensures ReadFields(s, idx, n) == Ok(fields, end) <==>
      |fields| == n && Encodable(fields) && idx <= end <= |s| && s[idx..end] == Encode(fields)
    decreases n
  {
    if n > 0 {
      if idx < |s| && idx + 1 + s[idx] <= |s| && fields != [] {
        var next := idx + 1 + s[idx];
        ReadsIff(s, next, n - 1, fields[1..], end);
        if ReadFields(s, idx, n) == Ok(fields, end) {
          assert fields == [s[idx + 1..next]] + fields[1..];
          assert s[idx..end] == [s[idx]] + s[idx + 1..next] + s[next..end];
        }
      }
      if |fields| == n && Encodable(fields) && idx <= end <= |s| && s[idx..end] == Encode(fields) {
        FirstField(s, idx, fields, end);
      }
    }
  }

  /** An application id, four encoded fields and any tail. */
  ghost predicate Decomposes(s: seq<Byte>, fields: seq<seq<Byte>>, tail: seq<Byte>) {
    |fields| == FIELDS && Encodable(fields) && s != [] && s[1..] == Encode(fields) + tail
  }

  lemma EncodedLength(fields: seq<seq<Byte>>)
    requires Encodable(fields)
    ensures |Encode(fields)| >= |fields|
  {}

  /** The parser accepts exactly the payloads that decompose; it then has read those fields and
      stands at the tail. */
  lemma ParsesIff(s: seq<Byte>, fields: seq<seq<Byte>>, tail: seq<Byte>)
    ensures Decomposes(s, fields, tail) <==>
            Parse(s).Ok? && Parse(s).fields == fields && s[Parse(s).end..] == tail && s != []
  {
    if s != [] {
      var end := |s| - |tail|;
      if Decomposes(s, fields, tail) {
        EncodedLength(fields);
        assert s[1..end] == s[1..][..end - 1] == Encode(fields);
        ReadsIff(s, 1, FIELDS, fields, end);
        assert s[end..] == s[1..][end - 1..] == tail;
      }
      if Parse(s).Ok? && Parse(s).fields == fields && s[Parse(s).end..] == tail {
        ReadsIff(s, 1, FIELDS, fields, Parse(s).end);
        assert s[1..] == s[1..Parse(s).end] + s[Parse(s).end..];
      }
    }
  }

  /** A payload without tail is read to its end. */
  lemma EncodedIsReadToEnd(app: Byte, fields: seq<seq<Byte>>)
    requires |fields| == FIELDS && Encodable(fields)
    ensures Parse([app] + Encode(fields)) == Ok(fields, |[app] + Encode(fields)|)
  {
    var s := [app] + Encode(fields);
    assert s[1..] == Encode(fields) + [];
    ParsesIff(s, fields, []);
    assert |s[Parse(s).end..]| == 0;
  }

  /** k fields are there and then the payload is over. */
  predicate MissingAfter(s: seq<Byte>, idx: nat, k: nat) {
    var r := ReadFields(s, idx, k);
    r.Ok? && r.end == |s|
  }

  /** k fields are there and the next one claims more bytes than are left. */
  predicate TooLongAfter(s: seq<Byte>, idx: nat, k: nat) {
    var r := ReadFields(s, idx, k);
    r.Ok? && r.end < |s| && r.end + 1 + s[r.end] > |s|
  }

  lemma OneMore(s: seq<Byte>, idx: nat, k: nat)
    requires idx < |s| && idx + 1 + s[idx] <= |s| && k > 0
    ensures var next := idx + 1 + s[idx];
      && (ReadFields(s, idx, k).Ok? <==> ReadFields(s, next, k - 1).Ok?)
      && (ReadFields(s, idx, k).Ok? ==> ReadFields(s, idx, k).end == ReadFields(s, next, k - 1).end)
  {}

  /** Which error: a field missing altogether, or one longer than what is left. */
  lemma {:induction false} ErrorIff(s: seq<Byte>, idx: nat, n: nat)
    requires idx <= |s|
    ensures ReadFields(s, idx, n) == Err(BadMessage) <==> exists k: nat :: k < n && MissingAfter(s, idx, k)
    ensures ReadFields(s, idx, n) == Err(MessageSize) <==> exists k: nat :: k < n && TooLongAfter(s, idx, k)
    decreases n
  {
    assert ReadFields(s, idx, 0) == Ok([], idx);
    if n > 0 {
      if idx == |s| {
        assert MissingAfter(s, idx, 0);
      } else if idx + 1 + s[idx] > |s| {
        assert TooLongAfter(s, idx, 0);
      } else {
        var next := idx + 1 + s[idx];
        ErrorIff(s, next, n - 1);
        forall k: nat | 0 < k
          ensures MissingAfter(s, idx, k) == MissingAfter(s, next, k - 1)
          ensures TooLongAfter(s, idx, k) == TooLongAfter(s, next, k - 1)
        {
          OneMore(s, idx, k);
        }
        forall k: nat | k < n - 1
          ensures MissingAfter(s, next, k) ==> MissingAfter(s, idx, k + 1)
          ensures TooLongAfter(s, next, k) ==> TooLongAfter(s, idx, k + 1)
        {
          OneMore(s, idx, k + 1);
        }
      }
    }
  }

  lemma {:induction false} NeverInvalid(s: seq<Byte>, idx: nat, n: nat)
    ensures ReadFields(s, idx, n) != Err(InvalidArgument)
    decreases n
  {
    if n > 0 && idx < |s| { NeverInvalid(s, idx + 1 + s[idx], n - 1); }
  }

  /** The same for a whole payload: EINVAL for fewer than five bytes, and otherwise by its fields. */
  lemma RefusedIff(s: seq<Byte>)
    ensures Parse(s) == Err(InvalidArgument) <==> |s| < 5
    ensures Parse(s) == Err(BadMessage) <==> |s| >= 5 && exists k: nat :: k < FIELDS && MissingAfter(s, 1, k)
    ensures Parse(s) == Err(MessageSize) <==> |s| >= 5 && exists k: nat :: k < FIELDS && TooLongAfter(s, 1, k)
  {
    hide MissingAfter, TooLongAfter, ReadFields;
    if |s| >= 5 {
      ErrorIff(s, 1, FIELDS);
      NeverInvalid(s, 1, FIELDS);
    }
  }

  // ---------------------------------------------------------------- the buffers

  function Copied(field: seq<Byte>, max: nat): (n: nat)
    requires max > 0
    ensures n <= |field| && n < max
  {
    if |field| < max - 1 then |field| else max - 1
  }

  /** What a buffer holds after memcpy and termination. */
  function Stored(field: seq<Byte>, was: seq<Byte>): (now: seq<Byte>)
    requires was != []
    ensures |now| == |was|
  {
    var n := Copied(field, |was|);
    field[..n] + [0] + was[n + 1..]
  }

  /** The C string in a buffer. */
  function CString(s: seq<Byte>): seq<Byte> {
    if s == [] || s[0] == 0 then [] else [s[0]] + CString(s[1..])
  }

  predicate Terminated(s: seq<Byte>) { 0 in s }

  lemma {:induction false} CStringStops(a: seq<Byte>, b: seq<Byte>)
    ensures CString(a + [0] + b) == CString(a)
  {
    if a == [] {
      assert (a + [0] + b)[0] == 0;
    } else {
      assert (a + [0] + b)[1..] == a[1..] + [0] + b;
      CStringStops(a[1..], b);
    }
  }

  lemma {:induction false} CStringWhole(s: seq<Byte>)
    requires 0 !in s
    ensures CString(s) == s
  {
    if s != [] { CStringWhole(s[1..]); }
  }

  /** A buffer ends up terminated, holding the field cut to one byte less than its size. */
  lemma StoredIsCut(field: seq<Byte>, was: seq<Byte>)
    requires was != []
    ensures Terminated(Stored(field, was))
    ensures CString(Stored(field, was)) == CString(Take(field, |was| - 1))
    ensures 0 !in field ==> CString(Stored(field, was)) == Take(field, |was| - 1)
  {
    var n := Copied(field, |was|);
    assert Stored(field, was)[n] == 0;
    CStringStops(field[..n], was[n + 1..]);
    if 0 !in field { CStringWhole(field[..n]); }
    assert field[..n] == Take(field, |was| - 1);
  }

  lemma StoredAt(field: seq<Byte>, was: seq<Byte>, now: seq<Byte>)
    requires was != [] && |now| == |was|
    requires var n := Copied(field, |was|);
      && (forall k :: 0 <= k < n ==> now[k] == field[k])
      && now[n] == 0
      && (forall k :: n < k < |was| ==> now[k] == was[k])
    ensures now == Stored(field, was)
  {}

  lemma OneField(s: seq<Byte>, idx: nat)
    ensures ReadFields(s, idx, 1) ==
      if idx >= |s| then Err(BadMessage)
      else if idx + 1 + s[idx] > |s| then Err(MessageSize)
      else Ok([s[idx + 1..idx + 1 + s[idx]]], idx + 1 + s[idx])
  {
    if idx < |s| && idx + 1 + s[idx] <= |s| {
      assert ReadFields(s, idx + 1 + s[idx], 0) == Ok([], idx + 1 + s[idx]);
    }
  }

  /** extract_lean_string: None is success. */
  method ExtractLeanString(payload: array<Byte>, len: nat, currentIdx: nat, dest: array<Byte>, destMax: nat)
    returns (err: Option<Error>, idx: nat)
    requires len <= payload.Length && len <= 0xffff
    requires dest != payload && dest.Length == destMax && 0 < destMax < 256
    modifies dest
    ensures match ReadFields(payload[..len], currentIdx, 1)
      case Err(e) => err == Some(e) && idx == currentIdx && dest[..] == old(dest[..])
      case Ok(fields, end) => err == None && idx == end && dest[..] == Stored(fields[0], old(dest[..]))
  {
    hide ReadFields, Stored;
    OneField(payload[..len], currentIdx);
    idx := currentIdx;
    if idx >= len { return Some(BadMessage), currentIdx; }
    var strLen := payload[idx];
    idx := idx + 1;
    if idx + strLen > len { return Some(MessageSize), currentIdx; }
    var copyBytes := if strLen < destMax - 1 then strLen else destMax - 1;
    ghost var was, s := dest[..], payload[..len];
    ghost var field := s[idx..idx + strLen];
    assert forall k :: 0 <= k < strLen ==> field[k] == payload[idx + k];
    forall k | 0 <= k < copyBytes { dest[k] := payload[idx + k]; }
    dest[copyBytes] := 0;
    assert forall k :: 0 <= k < copyBytes ==> dest[k] == field[k];
    StoredAt(field, was, dest[..]);
    assert payload[..len] == s;
    return None, idx + strLen;
  }

  lemma {:induction false} FewerFields(s: seq<Byte>, idx: nat, m: nat, n: nat)
    requires m < n
    ensures ReadFields(s, idx, n).Ok? ==>
      ReadFields(s, idx, m).Ok? && ReadFields(s, idx, m).fields == ReadFields(s, idx, n).fields[..m]
    ensures ReadFields(s, idx, m).Err? ==> ReadFields(s, idx, n) == ReadFields(s, idx, m)
    decreases m
  {
    if m > 0 && idx < |s| && idx + 1 + s[idx] <= |s| {
      FewerFields(s, idx + 1 + s[idx], m - 1, n - 1);
    }
  }

  /** Reading one field more. */
  lemma {:induction false} NextField(s: seq<Byte>, idx: nat, n: nat)
    requires ReadFields(s, idx, n).Ok?
    ensures var r, one := ReadFields(s, idx, n), ReadFields(s, ReadFields(s, idx, n).end, 1);
      ReadFields(s, idx, n + 1) == if one.Ok? then Ok(r.fields + one.fields, one.end) else Err(one.error)
    decreases n
  {
    if n > 0 {
      NextField(s, idx + 1 + s[idx], n - 1);
    }
  }

  /** notification_t; a handler of 0 is NULL. */
  class Notice {
    var app: Byte
    const appName: array<Byte>
    const body: array<Byte>
    const actionName: array<Byte>
    const dismissText: array<Byte>
    var actionHandler: nat
    var dismissHandler: nat

    ghost predicate Valid() {
      && appName.Length == 14 && body.Length == 100
      && actionName.Length == 15 && dismissText.Length == 15
      && appName != body && appName != actionName && appName != dismissText
      && body != actionName && body != dismissText && actionName != dismissText
    }

    ghost function Buffers(): set<object> { {appName, body, actionName, dismissText} }

    constructor ()
      ensures Valid() && fresh(Buffers())
    {
      app, actionHandler, dismissHandler := 0, 0, 0;
      appName := new Byte[14](_ => 0);
      body := new Byte[100](_ => 0);
      actionName := new Byte[15](_ => 0);
      dismissText := new Byte[15](_ => 0);
    }
  }

  /** What buffer k holds after a parse: its field if reading got that far. */
  function Buffer(s: seq<Byte>, k: nat, was: seq<Byte>): seq<Byte>
    requires was != []
  {
    if |s| < 5 || ReadFields(s, 1, k + 1).Err? then was
    else Stored(ReadFields(s, 1, k + 1).fields[k], was)
  }

  lemma NoField(s: seq<Byte>, idx: nat)
    ensures ReadFields(s, idx, 0) == Ok([], idx)
  {}

  /** Where reading fails, reading more fails alike. */
  lemma Failing(s: seq<Byte>, m: nat)
    ensures ReadFields(s, 1, m).Err? ==>
      forall n :: m < n ==> ReadFields(s, 1, n) == ReadFields(s, 1, m)
  {
    forall n | m < n ensures ReadFields(s, 1, m).Err? ==> ReadFields(s, 1, n) == ReadFields(s, 1, m) {
      FewerFields(s, 1, m, n);
    }
  }

  /** parse_notification_payload: None is success. */
  method ParseNotification(payload: array<Byte>, len: nat, dest: Notice) returns (err: Option<Error>)
    requires len <= payload.Length && len <= 0xffff
    requires dest.Valid() && payload !in dest.Buffers()
    modifies dest, dest.Buffers()
    ensures var s := payload[..len];
      && err == (match Parse(s) case Ok(_, _) => None case Err(e) => Some(e))
      && dest.appName[..] == Buffer(s, 0, old(dest.appName[..]))
      && dest.body[..] == Buffer(s, 1, old(dest.body[..]))
      && dest.actionName[..] == Buffer(s, 2, old(dest.actionName[..]))
      && dest.dismissText[..] == Buffer(s, 3, old(dest.dismissText[..]))
      && dest.app == (if |s| < 5 then old(dest.app) else s[0])
      && (err == None ==> dest.actionHandler == 0 && dest.dismissHandler == 0)
      && (err != None ==>
            dest.actionHandler == old(dest.actionHandler) && dest.dismissHandler == old(dest.dismissHandler))
  {
    hide ReadFields, Stored;
    var idx := 0;
    if len < 5 { return Some(InvalidArgument); }
    ghost var s := payload[..len];
    dest.app := payload[idx];
    idx := idx + 1;
    NoField(s, 1);
    NextField(s, 1, 0);
    Failing(s, 1);
    err, idx := ExtractLeanString(payload, len, idx, dest.appName, 14);
    if err != None { return; }
    NextField(s, 1, 1);
    Failing(s, 2);
    err, idx := ExtractLeanString(payload, len, idx, dest.body, 100);
    if err != None { return; }
    NextField(s, 1, 2);
    Failing(s, 3);
    err, idx := ExtractLeanString(payload, len, idx, dest.actionName, 15);
    if err != None { return; }
    NextField(s, 1, 3);
    err, idx := ExtractLeanString(payload, len, idx, dest.dismissText, 15);
    if err != None { return; }
    dest.actionHandler := 0;
    dest.dismissHandler := 0;
  }

  /** A payload encoded from four fields ends up in the buffers, each cut to fit. */
  lemma EncodedFillsBuffers(app: Byte, fields: seq<seq<Byte>>, k: nat, was: seq<Byte>)
    requires |fields| == FIELDS && Encodable(fields) && k < FIELDS && was != []
    ensures var s := [app] + Encode(fields);
      Parse(s) == Ok(fields, |s|) && Buffer(s, k, was) == Stored(fields[k], was)
  {
    var s := [app] + Encode(fields);
    EncodedIsReadToEnd(app, fields);
    if k + 1 < FIELDS { FewerFields(s, 1, k + 1, FIELDS); }
  }
}
