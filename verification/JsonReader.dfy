/**
 A JSON reader written from sections 2, 4, 5 and 7 of RFC 8259, for the values procenv writes (strings, arrays and
 objects, with members kept in order).
 */
module JsonReader {
  import opened Prelude
  import opened Decoding

  datatype Json = JString(text: string) | JObject(members: JMembers) | JArray(items: JItems)
  datatype JMembers = NoMembers | Member(name: string, value: Json, more: JMembers)
  datatype JItems = NoItems | Item(value: Json, more: JItems)

  /** What reads a string whose opening quote has been read. */
  type StringReader = string -> Option<Scan>

  /** A string reader is given up on if it does not consume anything. */
  function ReadString(rd: StringReader, s: string): (r: Option<Scan>)
    ensures r.Some? ==> |r.value.rest| < |s|
  {
    match rd(s)
    case None => None
    case Some(scan) => if |scan.rest| < |s| then Some(scan) else None
  }

  function ParseValue(rd: StringReader, s: string): (r: Option<Parsed<Json>>)
    ensures r.Some? ==> |r.value.rest| < |s|
    decreases |s|, 0
  {
    if s == "" then None
    else if s[0] == '"' then
      (match ReadString(rd, s[1..])
       case None => None
       case Some(scan) => Some(Parsed(JString(scan.text), scan.rest)))
    else if s[0] == '{' then
      var t := SkipSpace(s[1..]);
      if t != "" && t[0] == '}' then Some(Parsed(JObject(NoMembers), t[1..]))
      else
        (match ParseMembers(rd, t)
         case None => None
         case Some(ms) => Some(Parsed(JObject(ms.value), ms.rest)))
    else if s[0] == '[' then
      var t := SkipSpace(s[1..]);
      if t != "" && t[0] == ']' then Some(Parsed(JArray(NoItems), t[1..]))
      else
        (match ParseItems(rd, t)
         case None => None
         case Some(xs) => Some(Parsed(JArray(xs.value), xs.rest)))
    else None
  }

  /** One or more members and the closing brace. */
  function ParseMembers(rd: StringReader, s: string): (r: Option<Parsed<JMembers>>)
    ensures r.Some? ==> |r.value.rest| < |s|
    decreases |s|, 0
  {
    if s == "" || s[0] != '"' then None
    else
      match ReadString(rd, s[1..])
      case None => None
      case Some(name) =>
        var t := SkipSpace(name.rest);
        if t == "" || t[0] != ':' then None
        else
          match ParseValue(rd, SkipSpace(t[1..]))
          case None => None
          case Some(v) => AfterMember(rd, name.text, v.value, v.rest)
  }

  /** What may follow a member: the closing brace, or a comma and more members. */
  function AfterMember(rd: StringReader, name: string, v: Json, s: string): (r: Option<Parsed<JMembers>>)
    ensures r.Some? ==> |r.value.rest| < |s|
    decreases |s|, 0
  {
    var u := SkipSpace(s);
    if u == "" then None
    else if u[0] == '}' then Some(Parsed(Member(name, v, NoMembers), u[1..]))
    else if u[0] != ',' then None
    else
      match ParseMembers(rd, SkipSpace(u[1..]))
      case None => None
      case Some(more) => Some(Parsed(Member(name, v, more.value), more.rest))
  }

  /** One or more values and the closing bracket. */
  function ParseItems(rd: StringReader, s: string): (r: Option<Parsed<JItems>>)
    ensures r.Some? ==> |r.value.rest| < |s|
    decreases |s|, 1
  {
    match ParseValue(rd, s)
    case None => None
    case Some(v) => AfterItem(rd, v.value, v.rest)
  }

  function AfterItem(rd: StringReader, v: Json, s: string): (r: Option<Parsed<JItems>>)
    ensures r.Some? ==> |r.value.rest| < |s|
    decreases |s|, 0
  {
    var u := SkipSpace(s);
    if u == "" then None
    else if u[0] == ']' then Some(Parsed(Item(v, NoItems), u[1..]))
    else if u[0] != ',' then None
    else
      match ParseItems(rd, SkipSpace(u[1..]))
      case None => None
      case Some(more) => Some(Parsed(Item(v, more.value), more.rest))
  }

  /** A JSON text: one value with white space around it. */
  function ParseText(rd: StringReader, s: string): Option<Json> {
    match ParseValue(rd, SkipSpace(s))
    case None => None
    case Some(v) => if SkipSpace(v.rest) == "" then Some(v.value) else None
  }

  function ParseJson(s: string): Option<Json> {
    ParseText(ReadJsonString, s)
  }
}
