/** Assembly of the outgoing notification in `postNotification`
    (RNOneSignal.java, lines 332-379): the JSON object handed to the SDK is
    built from the notification contents, optional target player ids,
    optional extra data, and optional raw parameters merged in key by key,
    with a `hidden: true` raw parameter also recorded inside `data`. Any
    JSONException on the way aborts the operation: nothing is posted. */
module Notification {
  import opened Wrappers
  import opened Json
  import JavaText

  /** HIDDEN_MESSAGE_KEY */
  const Hidden := "hidden"
  const Contents := "contents"
  const PlayerIds := "include_player_ids"
  const Data := "data"
  const PeerToPeer := "p2p_notification"

  /** An optional string argument after parsing. */
  datatype Arg<T> = Absent | Parsed(value: T) | Malformed

  /** `playerId`: when not null it is parsed as a JSON array. */
  function ParsePlayerIds(parse: Parser, playerId: Option<string>): Arg<seq<Json>> {
    if playerId.None? then Absent
    else match ParseArray(parse, playerId.value)
      case Some(ids) => Parsed(ids)
      case None => Malformed
  }

  /** `data`: when not null it is parsed as a JSON object. */
  function ParseData(parse: Parser, data: Option<string>): Arg<Object> {
    if data.None? then Absent
    else match ParseObject(parse, data.value)
      case Some(d) => Parsed(d)
      case None => Malformed
  }

  /** `otherParameters`: ignored when null or blank, otherwise trimmed and
      parsed as a JSON object. */
  function ParseParameters(parse: Parser, otherParameters: Option<string>): Arg<Object> {
    if otherParameters.None? || |JavaText.Trim(otherParameters.value)| == 0 then Absent
    else match ParseObject(parse, JavaText.Trim(otherParameters.value))
      case Some(p) => Parsed(p)
      case None => Malformed
  }

  /** The payload before the raw parameters are merged in. */
  function Base(contents: Object, ids: Arg<seq<Json>>, data: Arg<Object>): Object {
    var withContents := map[Contents := Obj(contents)];
    var withIds := if ids.Parsed? then withContents[PlayerIds := Arr(ids.value)] else withContents;
    if data.Parsed? then withIds[Data := Obj(map[PeerToPeer := Obj(data.value)])] else withIds
  }

  /** `parametersJson.has("hidden") && parametersJson.getBoolean("hidden")`:
      None when the member is there but getBoolean throws. */
  function HiddenRequested(params: Object): (r: Option<bool>)
    ensures Hidden !in params ==> r == Some(false)
    ensures r == Some(true) ==> Hidden in params
    ensures Hidden in params && params[Hidden].Bool? ==> r == Some(params[Hidden].b)
    ensures Hidden in params && !params[Hidden].Bool? && !params[Hidden].Str? ==> r.None?
  {
    if Hidden !in params then Some(false) else GetBoolean(params, Hidden)
  }

  /** `postNotification.getJSONObject("data").put("hidden", true)`. */
  function MarkHidden(payload: Object): (r: Option<Object>)
    ensures r.Some? <==> Data in payload && payload[Data].Obj?
    ensures r.Some? ==> r.value.Keys == payload.Keys
    ensures r.Some? ==> forall k :: k in payload && k != Data ==> r.value[k] == payload[k]
    ensures r.Some? ==> r.value[Data].Obj? && r.value[Data].fields.Keys == payload[Data].fields.Keys + {Hidden}
    ensures r.Some? ==> r.value[Data].fields[Hidden] == Bool(true)
    ensures r.Some? ==> forall k :: k in payload[Data].fields && k != Hidden ==>
                          r.value[Data].fields[k] == payload[Data].fields[k]
  {
    var d :- GetObject(payload, Data);
    Some(payload[Data := Obj(d[Hidden := Bool(true)])])
  }

  /** The object posted to the SDK, or None when a JSONException is thrown
      and nothing is posted. The raw parameters are merged over the base
      payload: where both have a key, the raw parameter wins. */
  function Build(parse: Parser, contents: string, data: Option<string>,
                 playerId: Option<string>, otherParameters: Option<string>): (r: Option<Object>)
    ensures r.Some? ==> ParseObject(parse, contents).Some? && Contents in r.value
    ensures r.Some? ==> !ParsePlayerIds(parse, playerId).Malformed? && !ParseData(parse, data).Malformed?
                        && !ParseParameters(parse, otherParameters).Malformed?
  {
    var c :- ParseObject(parse, contents);
    var ids, d, p := ParsePlayerIds(parse, playerId), ParseData(parse, data),
                     ParseParameters(parse, otherParameters);
    if ids.Malformed? || d.Malformed? || p.Malformed? then None
    else if p.Absent? then Some(Base(c, ids, d))
    else
      var merged := Base(c, ids, d) + p.value;
      var hidden :- HiddenRequested(p.value);
      if hidden then MarkHidden(merged) else Some(merged)
  }

  /** The `while (keys.hasNext())` loop of `postNotification`: every member
      of the raw parameters is put into the payload, in whatever order the
      iterator yields the keys, replacing a member of the same name. */
  method MergeInto(payload: Object, params: Object) returns (merged: Object)
    ensures merged.Keys == payload.Keys + params.Keys
    ensures forall k :: k in params ==> merged[k] == params[k]
    ensures forall k :: k in payload && k !in params ==> merged[k] == payload[k]
  {
    merged := payload;
    var keys := params.Keys;
    while keys != {}
      invariant keys <= params.Keys
      invariant merged.Keys == payload.Keys + (params.Keys - keys)
      invariant forall k :: k in merged ==>
                  merged[k] == if k in params && k !in keys then params[k] else payload[k]
      decreases keys
    {
      var key :| key in keys;
      merged := merged[key := params[key]];
      keys := keys - {key};
    }
  }

  /** The body of the try block of `postNotification`, statement by
      statement: successive puts into a mutable object and the key-by-key
      merge loop over the raw parameters. Returns what is posted, or None
      when a JSONException is caught. */
  method Assemble(parse: Parser, contents: string, data: Option<string>,
                  playerId: Option<string>, otherParameters: Option<string>)
    returns (posted: Option<Object>)
    ensures posted == Build(parse, contents, data, playerId, otherParameters)
  {
    var c := ParseObject(parse, contents);
    if c.None? {
      return None;
    }
    var payload: Object := map[Contents := Obj(c.value)];

    if playerId.Some? {
      var ids := ParseArray(parse, playerId.value);
      if ids.None? {
        return None;
      }
      payload := payload[PlayerIds := Arr(ids.value)];
    }

    if data.Some? {
      var d := ParseObject(parse, data.value);
      if d.None? {
        return None;
      }
      payload := payload[Data := Obj(map[PeerToPeer := Obj(d.value)])];
    }

    assert payload == Base(c.value, ParsePlayerIds(parse, playerId), ParseData(parse, data));

    if otherParameters.Some? && |JavaText.Trim(otherParameters.value)| != 0 {
      var p := ParseObject(parse, JavaText.Trim(otherParameters.value));
      if p.None? {
        return None;
      }
      var params := p.value;
      ghost var base := payload;
      payload := MergeInto(payload, params);
      assert payload == base + params;

      if Hidden in params {
        var hidden := GetBoolean(params, Hidden);
        if hidden.None? {
          return None;
        }
        if hidden.value {
          var d := GetObject(payload, Data);
          if d.None? {
            return None;
          }
          payload := payload[Data := Obj(d.value[Hidden := Bool(true)])];
        }
      }
    }
    return Some(payload);
  }
}

module NotificationProperties {
  import opened Wrappers
  import opened Json
  import JavaText
  import opened Notification

  /** The raw parameters are used and have a member named key. */
  predicate RawHas(parse: Parser, otherParameters: Option<string>, key: string) {
    ParseParameters(parse, otherParameters).Parsed? && key in ParseParameters(parse, otherParameters).value
  }

  /** The raw parameters are used and ask for a hidden notification. */
  predicate HiddenAsked(parse: Parser, otherParameters: Option<string>) {
    ParseParameters(parse, otherParameters).Parsed?
    && HiddenRequested(ParseParameters(parse, otherParameters).value) == Some(true)
  }

  /** The contents always reach the posted object; unless a raw parameter
      replaces them, they are the parsed contents argument. */
  lemma ContentsPresent(parse: Parser, contents: string, data: Option<string>,
                        playerId: Option<string>, otherParameters: Option<string>, m: Object)
    requires Build(parse, contents, data, playerId, otherParameters) == Some(m)
    ensures Contents in m
    ensures ParseObject(parse, contents).Some?
    ensures !RawHas(parse, otherParameters, Contents) ==>
              m[Contents] == Obj(ParseObject(parse, contents).value)
  {
  }

  /** Unless a raw parameter supplies them, the target player ids are posted
      exactly when `playerId` is not null, as the parsed array. */
  lemma PlayerIdsPresentIff(parse: Parser, contents: string, data: Option<string>,
                            playerId: Option<string>, otherParameters: Option<string>, m: Object)
    requires Build(parse, contents, data, playerId, otherParameters) == Some(m)
    requires !RawHas(parse, otherParameters, PlayerIds)
    ensures PlayerIds in m <==> playerId.Some?
    ensures playerId.Some? ==>
              ParseArray(parse, playerId.value).Some?
              && m[PlayerIds] == Arr(ParseArray(parse, playerId.value).value)
  {
  }

  /** Unless a raw parameter supplies `data` or a hidden notification is
      asked for, `data` is posted exactly when the data argument is not null,
      and it is then `{p2p_notification: <parsed data>}`. */
  lemma DataPresentIff(parse: Parser, contents: string, data: Option<string>,
                       playerId: Option<string>, otherParameters: Option<string>, m: Object)
    requires Build(parse, contents, data, playerId, otherParameters) == Some(m)
    requires !RawHas(parse, otherParameters, Data) && !HiddenAsked(parse, otherParameters)
    ensures Data in m <==> data.Some?
    ensures data.Some? ==>
              ParseObject(parse, data.value).Some?
              && m[Data] == Obj(map[PeerToPeer := Obj(ParseObject(parse, data.value).value)])
  {
  }

  /** Every raw parameter is copied into the posted object, replacing a
      member of the same name (only `data` may be amended afterwards), and
      nothing but the contents, the player ids and the data is added. A raw
      `data` replaces the data argument's `{p2p_notification: ...}` object
      unless a hidden notification is asked for. */
  lemma RawParametersMerged(parse: Parser, contents: string, data: Option<string>,
                            playerId: Option<string>, otherParameters: Option<string>, m: Object)
    requires Build(parse, contents, data, playerId, otherParameters) == Some(m)
    requires ParseParameters(parse, otherParameters).Parsed?
    ensures forall k :: k in ParseParameters(parse, otherParameters).value && k != Data ==>
              k in m && m[k] == ParseParameters(parse, otherParameters).value[k]
    ensures forall k :: k in m ==>
              k in ParseParameters(parse, otherParameters).value || k in {Contents, PlayerIds, Data}
    ensures !HiddenAsked(parse, otherParameters) && Data in ParseParameters(parse, otherParameters).value ==>
              Data in m && m[Data] == ParseParameters(parse, otherParameters).value[Data]
  {
  }

  /** A raw `hidden` parameter that reads as true is recorded as
      `data.hidden = true`, the other members of `data` are kept, and the
      raw parameter itself also stays at the top level. */
  lemma HiddenRelocated(parse: Parser, contents: string, data: Option<string>,
                        playerId: Option<string>, otherParameters: Option<string>, m: Object)
    requires Build(parse, contents, data, playerId, otherParameters) == Some(m)
    requires HiddenAsked(parse, otherParameters)
    ensures Data in m && m[Data].Obj?
    ensures Hidden in m[Data].fields && m[Data].fields[Hidden] == Bool(true)
    ensures Hidden in m && m[Hidden] == ParseParameters(parse, otherParameters).value[Hidden]
    ensures var p := ParseParameters(parse, otherParameters).value;
            var before := if Data in p then p[Data]
                          else Obj(map[PeerToPeer := Obj(ParseObject(parse, data.value).value)]);
            before.Obj? && forall k :: k in before.fields && k != Hidden ==>
              k in m[Data].fields && m[Data].fields[k] == before.fields[k]
  {
    var p := ParseParameters(parse, otherParameters).value;
    if Data !in p {
      assert data.Some? && ParseData(parse, data).Parsed?;
    }
  }

  /** Nothing is posted exactly when a JSONException is thrown: the contents,
      player ids, data or raw parameters do not parse to the expected shape,
      the raw `hidden` member is not a boolean, or a hidden notification is
      asked for while `data` (after the merge) is missing or not an object. */
  lemma NothingPostedIff(parse: Parser, contents: string, data: Option<string>,
                         playerId: Option<string>, otherParameters: Option<string>)
    ensures Build(parse, contents, data, playerId, otherParameters).None? <==>
      || ParseObject(parse, contents).None?
      || ParsePlayerIds(parse, playerId).Malformed?
      || ParseData(parse, data).Malformed?
      || ParseParameters(parse, otherParameters).Malformed?
      || (ParseParameters(parse, otherParameters).Parsed?
          && var p := ParseParameters(parse, otherParameters).value;
          || HiddenRequested(p).None?
          || (HiddenRequested(p) == Some(true)
              && if Data in p then !p[Data].Obj? else data.None?))
  {
  }

  /** The notification is silently dropped when a hidden notification is
      asked for with no data argument and no raw `data` object. */
  lemma HiddenWithoutDataDropped(parse: Parser, contents: string,
                                 playerId: Option<string>, otherParameters: Option<string>)
    requires HiddenAsked(parse, otherParameters)
    requires !RawHas(parse, otherParameters, Data)
    ensures Build(parse, contents, None, playerId, otherParameters) == None
  {
  }

  /** Raw parameters that are blank after trimming are ignored. */
  lemma BlankParametersIgnored(parse: Parser, contents: string, data: Option<string>,
                               playerId: Option<string>, s: string)
    requires JavaText.IsBlank(s)
    ensures Build(parse, contents, data, playerId, Some(s)) == Build(parse, contents, data, playerId, None)
  {
  }

  /** Surrounding blanks of the raw parameters make no difference. */
  lemma ParametersTrimmed(parse: Parser, contents: string, data: Option<string>,
                          playerId: Option<string>, s: string)
    ensures Build(parse, contents, data, playerId, Some(s))
         == Build(parse, contents, data, playerId, Some(JavaText.Trim(s)))
  {
    JavaText.TrimIdempotent(s);
  }
}
