/** The fault signal's payload validator. A fault carries a message and a payload
    dictionary; construction insists that the payload names a primary axis key and a
    list of dependent axis keys, and that every named key holds a truthy value. */
module FDDExceptions {
  import opened Wrappers

  /** Payload values: text, numbers and lists. */
  datatype Value = Text(s: string) | Number(x: real) | List(items: seq<Value>)

  type Payload = map<string, Value>

  /** Python truthiness: empty text, zero and the empty list are false. */
  predicate Truthy(v: Value)
  {
    match v
    case Text(s) => |s| > 0
    case Number(x) => x != 0.0
    case List(items) => |items| > 0
  }

  const PrimaryLabel := "primary_axis_label"
  const DependentLabel := "dependent_axis_labels"

  /** The two required keys, in the order they are checked. */
  const RequiredLabels: seq<string> := [PrimaryLabel, DependentLabel]

  datatype ConstructionError =
    | RequiredKeyMissing(required: string) // KeyError: a required key is absent or falsy
    | PrimaryKeyMissing(key: Value)       // KeyError: the designated primary key is absent or falsy
    | DependentKeyMissing(quoted: Value)  // KeyError: a designated dependent key is absent or falsy
    | Unhashable(key: Value)              // TypeError: a list used as a dictionary key
    | NotIterable(labels: Value)          // TypeError: the dependent labels are a number

  /** A constructed fault signal. */
  datatype FDDException = FDDException(message: string, data: Payload)

  /** data.get(key) is truthy. Only text keys can be stored; a number key finds
      nothing. */
  predicate Present(data: Payload, key: Value)
  {
    key.Text? && key.s in data && Truthy(data[key.s])
  }

  /** Iterating over the dependent labels: a list yields its items, a text yields
      its characters, a number cannot be iterated. */
  function Labels(v: Value): (r: Result<seq<Value>, ConstructionError>)
    ensures r.Failure? <==> v.Number?
    ensures v.List? ==> r == Success(v.items)
    ensures v.Text? ==> r.Success? && |r.value| == |v.s|
                        && forall i :: 0 <= i < |v.s| ==> r.value[i] == Text([v.s[i]])
  {
    match v
    case List(items) => Success(items)
    case Text(s) => Success(seq(|s|, i requires 0 <= i < |s| => Text([s[i]])))
    case Number(_) => Failure(NotIterable(v))
  }

  /** The first label whose lookup fails, by raising or by finding nothing truthy. */
  function FirstBadLabel(data: Payload, labels: seq<Value>): (r: Option<nat>)
    ensures r.None? <==> forall i :: 0 <= i < |labels| ==> Present(data, labels[i])
    ensures r.Some? ==> r.value < |labels| && !Present(data, labels[r.value])
    ensures r.Some? ==> forall i :: 0 <= i < r.value ==> Present(data, labels[i])
  {
    if |labels| == 0 then None
    else if !Present(data, labels[0]) then Some(0)
    else
      match FirstBadLabel(data, labels[1..])
      case None => None
      case Some(j) => Some(j + 1)
  }

  /** Which key a missing-dependent message quotes: the source formats the message
      with the primary axis key; the corrected wording quotes the missing label. */
  datatype Wording = AsWritten | Corrected

  /** The reference definition of an acceptable payload. */
  ghost predicate WellFormed(data: Payload)
  {
    && (forall l :: l in RequiredLabels ==> l in data && Truthy(data[l]))
    && Present(data, data[PrimaryLabel])
    && !data[DependentLabel].Number?
    && forall i :: 0 <= i < |Labels(data[DependentLabel]).value| ==>
                   Present(data, Labels(data[DependentLabel]).value[i])
  }

  /** FDDException.__init__ under either wording of the dependent-key message. */
  function Validate(message: string, data: Payload, wording: Wording): (r: Result<FDDException, ConstructionError>)
    ensures r.Success? <==> WellFormed(data)
    ensures r.Success? ==> r.value.message == message && r.value.data == data
    ensures r.Failure? && r.error.RequiredKeyMissing? ==>
              && r.error.required in RequiredLabels
              && !(r.error.required in data && Truthy(data[r.error.required]))
    ensures r.Failure? && !r.error.RequiredKeyMissing? ==>
              forall l :: l in RequiredLabels ==> l in data && Truthy(data[l])
    ensures r.Failure? && r.error.PrimaryKeyMissing? ==> !Present(data, r.error.key)
    ensures r.Failure? && r.error.Unhashable? ==> r.error.key.List?
  {
    if !(PrimaryLabel in data && Truthy(data[PrimaryLabel])) then Failure(RequiredKeyMissing(PrimaryLabel))
    else if !(DependentLabel in data && Truthy(data[DependentLabel])) then Failure(RequiredKeyMissing(DependentLabel))
    else
      var primary := data[PrimaryLabel];
      if primary.List? then Failure(Unhashable(primary))
      else if !Present(data, primary) then Failure(PrimaryKeyMissing(primary))
      else
        match Labels(data[DependentLabel])
        case Failure(e) => Failure(e)
        case Success(labels) =>
          match FirstBadLabel(data, labels)
          case None => Success(FDDException(message, data))
          case Some(i) =>
            if labels[i].List? then Failure(Unhashable(labels[i]))
            else if wording == AsWritten then Failure(DependentKeyMissing(primary))
            else Failure(DependentKeyMissing(labels[i]))
  }

  /** The validator with the corrected message: a missing dependent key is quoted. */
  function Construct(message: string, data: Payload): (r: Result<FDDException, ConstructionError>)
    ensures r.Success? <==> WellFormed(data)
    ensures r.Success? ==> r.value.message == message && r.value.data == data
    ensures r.Failure? && r.error.DependentKeyMissing? ==>
              && WellFormedUpToDependents(data)
              && r.error.quoted in Labels(data[DependentLabel]).value
              && !Present(data, r.error.quoted)
  {
    Validate(message, data, Corrected)
  }

  /** Everything but the dependent keys is in order. */
  ghost predicate WellFormedUpToDependents(data: Payload)
  {
    && (forall l :: l in RequiredLabels ==> l in data && Truthy(data[l]))
    && Present(data, data[PrimaryLabel])
    && !data[DependentLabel].Number?
  }

  /** The validator as written: a missing dependent key is reported by quoting the
      primary axis key. Acceptance is the same as the corrected one's. */
  function ConstructAsWritten(message: string, data: Payload): (r: Result<FDDException, ConstructionError>)
    ensures r.Success? <==> Construct(message, data).Success?
    ensures r.Success? ==> r == Construct(message, data)
    ensures r.Failure? && r.error.DependentKeyMissing? ==>
              PrimaryLabel in data && r.error.quoted == data[PrimaryLabel] && Present(data, r.error.quoted)
  {
    Validate(message, data, AsWritten)
  }

  /** The as-written message names a key that is present: with the primary key
      present and the one dependent key absent, it quotes the primary key. */
  lemma AsWrittenQuotesWrongKey()
    ensures var data := map[PrimaryLabel := Text("DateTime"), DependentLabel := List([Text("RoomTemperature")]),
                            "DateTime" := List([Number(1.0)])];
            && ConstructAsWritten("m", data) == Failure(DependentKeyMissing(Text("DateTime")))
            && Construct("m", data) == Failure(DependentKeyMissing(Text("RoomTemperature")))
  {
    var data := map[PrimaryLabel := Text("DateTime"), DependentLabel := List([Text("RoomTemperature")]),
                    "DateTime" := List([Number(1.0)])];
    assert PrimaryLabel in data && DependentLabel in data;
    assert !Present(data, Text("RoomTemperature"));
    assert FirstBadLabel(data, [Text("RoomTemperature")]) == Some(0);
  }

  /** The shape of the payload the tests build: a time axis, a room temperature
      series and both label keys, with any extra series alongside. */
  lemma TimeSeriesPayloadAccepted(message: string, times: seq<Value>, room: seq<Value>, extra: Payload)
    requires |times| > 0 && |room| > 0
    ensures var data := extra[PrimaryLabel := Text("DateTime")][DependentLabel := List([Text("RoomTemperature")])]
                             ["DateTime" := List(times)]["RoomTemperature" := List(room)];
            Construct(message, data) == Success(FDDException(message, data))
  {
    var data := extra[PrimaryLabel := Text("DateTime")][DependentLabel := List([Text("RoomTemperature")])]
                     ["DateTime" := List(times)]["RoomTemperature" := List(room)];
    assert Present(data, data[PrimaryLabel]);
    assert Labels(data[DependentLabel]).value == [Text("RoomTemperature")];
  }

  /** A dependent-labels text is iterated character by character, so a text naming
      a present key is still rejected unless every one-character key is present. */
  lemma TextLabelsIterateCharacters(data: Payload)
    requires PrimaryLabel in data && data[PrimaryLabel] == Text("DateTime")
    requires "DateTime" in data && Truthy(data["DateTime"])
    requires DependentLabel in data && data[DependentLabel] == Text("RT")
    requires "RoomTemperature" in data
    requires "R" !in data
    ensures Construct("m", data) == Failure(DependentKeyMissing(Text("R")))
  {
    assert Labels(data[DependentLabel]).value == [Text("R"), Text("T")];
    assert !Present(data, Text("R"));
  }
}
