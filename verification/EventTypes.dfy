/** Names of cloud event types and data types: printing and parsing. */
module EventTypes {
  import opened Wrappers
  import opened Strings

  datatype DataType = DataType(group: string, version: string, resource: string)

  datatype EventType = EventType(dataType: DataType, subResource: string, action: string)

  datatype ParseError = UnsupportedFormat | UnsupportedSubResource

  const SPEC := "spec"
  const STATUS := "status"
  const RESYNC_REQUEST := "resync_request"
  const RESYNC_RESPONSE := "resync_response"

  function DataTypeString(t: DataType): string {
    t.group + "." + t.version + "." + t.resource
  }

  function EventTypeString(t: EventType): string {
    t.dataType.group + "." + t.dataType.version + "." + t.dataType.resource + "." + t.subResource + "." + t.action
  }

  function ParseDataType(s: string): Result<DataType, ParseError> {
    var types := Split(s, '.');
    var length := |types|;
    if length < 3 then Err(UnsupportedFormat)
    else Ok(DataType(Join(types[..length - 2], '.'), types[length - 2], types[length - 1]))
  }

  function ParseEventType(s: string): Result<EventType, ParseError> {
    var types := Split(s, '.');
    var length := |types|;
    if length < 5 then Err(UnsupportedFormat)
    else if types[length - 2] != SPEC && types[length - 2] != STATUS then Err(UnsupportedSubResource)
    else Ok(EventType(DataType(Join(types[..length - 4], '.'), types[length - 4], types[length - 3]),
                      types[length - 2], types[length - 1]))
  }

  // ---------- printing what was parsed ----------

  lemma JoinSnoc(parts: seq<string>, last: string)
    requires |parts| >= 1
    ensures Join(parts + [last], '.') == Join(parts, '.') + "." + last
  {
    assert (parts + [last])[..|parts|] == parts;
  }

  lemma PrintParsedDataType(s: string)
    requires ParseDataType(s).Ok?
    ensures DataTypeString(ParseDataType(s).value) == s
  {
    var types := Split(s, '.');
    var n := |types|;
    JoinOfSplit(s, '.');
    assert types == types[..n - 2] + [types[n - 2]] + [types[n - 1]];
    JoinSnoc(types[..n - 2], types[n - 2]);
    JoinSnoc(types[..n - 2] + [types[n - 2]], types[n - 1]);
  }

  lemma PrintParsedEventType(s: string)
    requires ParseEventType(s).Ok?
    ensures EventTypeString(ParseEventType(s).value) == s
  {
    var types := Split(s, '.');
    var n := |types|;
    JoinOfSplit(s, '.');
    var group := types[..n - 4];
    assert types == group + [types[n - 4]] + [types[n - 3]] + [types[n - 2]] + [types[n - 1]];
    JoinSnoc(group, types[n - 4]);
    JoinSnoc(group + [types[n - 4]], types[n - 3]);
    JoinSnoc(group + [types[n - 4]] + [types[n - 3]], types[n - 2]);
    JoinSnoc(group + [types[n - 4]] + [types[n - 3]] + [types[n - 2]], types[n - 1]);
  }

  // ---------- parsing what was printed ----------

  lemma SplitSnocFree(front: string, last: string)
    requires Free(last, '.')
    ensures Split(front + "." + last, '.') == Split(front, '.') + [last]
  {
    SplitAtSeparator(front, last, '.');
    SplitOfFree(last, '.');
    assert front + "." + last == front + ['.'] + last;
  }

  /** Parsing inverts printing exactly for the data types whose version and resource have no dot;
      the group may have any number of dots. */
  lemma ParsePrintedDataType(t: DataType)
    ensures ParseDataType(DataTypeString(t)) == Ok(t) <==> Free(t.version, '.') && Free(t.resource, '.')
  {
    var types := Split(DataTypeString(t), '.');
    if ParseDataType(DataTypeString(t)) == Ok(t) {
      SplitPiecesFree(DataTypeString(t), '.');
    }
    if Free(t.version, '.') && Free(t.resource, '.') {
      SplitSnocFree(t.group, t.version);
      SplitSnocFree(t.group + "." + t.version, t.resource);
      JoinOfSplit(t.group, '.');
      assert types[..|types| - 2] == Split(t.group, '.');
    }
  }

  predicate Printable(t: EventType) {
    && Free(t.dataType.version, '.') && Free(t.dataType.resource, '.') && Free(t.action, '.')
    && (t.subResource == SPEC || t.subResource == STATUS)
  }

  lemma ParsePrintable(t: EventType)
    requires Printable(t)
    ensures ParseEventType(EventTypeString(t)) == Ok(t)
  {
    var d := t.dataType;
    SplitSnocFree(d.group, d.version);
    SplitSnocFree(d.group + "." + d.version, d.resource);
    SplitSnocFree(d.group + "." + d.version + "." + d.resource, t.subResource);
    SplitSnocFree(d.group + "." + d.version + "." + d.resource + "." + t.subResource, t.action);
    var groups := Split(d.group, '.');
    assert Split(EventTypeString(t), '.') == groups + [d.version, d.resource, t.subResource, t.action];
    JoinOfSplit(d.group, '.');
    assert (groups + [d.version, d.resource, t.subResource, t.action])[..|groups|] == groups;
  }

  /** The strings that parse are those that print an event type without dots where none may be. */
  lemma ParsesExactlyWhen(s: string)
    ensures ParseEventType(s).Ok? <==> exists t :: Printable(t) && EventTypeString(t) == s
    ensures ParseEventType(s) == Err(UnsupportedFormat) <==> |Split(s, '.')| < 5
  {
    if ParseEventType(s).Ok? {
      PrintParsedEventType(s);
      SplitPiecesFree(s, '.');
      assert Printable(ParseEventType(s).value);
    }
    forall t | Printable(t) && EventTypeString(t) == s ensures ParseEventType(s).Ok? {
      ParsePrintable(t);
    }
  }

  /** Parsing inverts printing exactly for event types whose version, resource and action have no
      dot and whose subresource is spec or status. */
  lemma ParsePrintedEventType(t: EventType)
    ensures ParseEventType(EventTypeString(t)) == Ok(t) <==> Printable(t)
  {
    if ParseEventType(EventTypeString(t)) == Ok(t) {
      SplitPiecesFree(EventTypeString(t), '.');
    }
    if Printable(t) {
      ParsePrintable(t);
    }
  }
}
