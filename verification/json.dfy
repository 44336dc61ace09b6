/**
 * The output side of `CodeMirrorSchemaInfoSerializer`: JSON values whose objects keep
 * their members in writing order, the stream of `JsonTextWriter` calls that writes a
 * value, and the layout the writer gives that stream under `Formatting.None` and
 * `Formatting.Indented`.
 */
module JsonWriter {
  import opened Outcomes

  /** A JSON value; an object's members are in the order they are written. */
  datatype Json = JNull | JString(text: string) | JArray(items: seq<Json>) | JObject(members: seq<Member>)

  datatype Member = Member(key: string, value: Json)

  /**
   * One writer call: `WriteStartObject`, `WriteEndObject`, `WriteStartArray`,
   * `WriteEndArray`, `WritePropertyName`, `WriteValue` of a string, `WriteNull`.
   */
  datatype Token =
    | StartObject
    | EndObject
    | StartArray
    | EndArray
    | PropertyName(name: string)
    | StringValue(value: string)
    | NullValue

  // ----- Writing a value as writer calls -----

  /** The writer calls that write `j`. */
  function Tokens(j: Json): seq<Token>
    decreases j, 0
  {
    match j
    case JNull => [NullValue]
    case JString(text) => [StringValue(text)]
    case JArray(items) => [StartArray] + ItemTokens(items) + [EndArray]
    case JObject(members) => [StartObject] + MemberTokens(members) + [EndObject]
  }

  /** The writer calls for the items of an array, one value after the other. */
  function ItemTokens(items: seq<Json>): seq<Token>
    decreases items, 1
  {
    if items == [] then [] else Tokens(items[0]) + ItemTokens(items[1..])
  }

  /** The writer calls for the members of an object: each name, then its value. */
  function MemberTokens(members: seq<Member>): seq<Token>
    decreases members, 1
  {
    if members == [] then []
    else [PropertyName(members[0].key)] + Tokens(members[0].value) + MemberTokens(members[1..])
  }

  // ----- Reading writer calls back -----

  /** Reads one value from the front of `ts`, returning it and the calls after it. */
  function ParseValue(ts: seq<Token>): (r: Option<(Json, seq<Token>)>)
    ensures r.Some? ==> |r.value.1| < |ts|
    decreases |ts|, 0
  {
    if ts == [] then None
    else
      match ts[0]
      case NullValue => Some((JNull, ts[1..]))
      case StringValue(v) => Some((JString(v), ts[1..]))
      case StartArray =>
        (match ParseItems(ts[1..])
         case None => None
         case Some((items, rest)) => Some((JArray(items), rest)))
      case StartObject =>
        (match ParseMembers(ts[1..])
         case None => None
         case Some((members, rest)) => Some((JObject(members), rest)))
      case _ => None
  }

  /** Reads array items up to and including the closing `EndArray`. */
  function ParseItems(ts: seq<Token>): (r: Option<(seq<Json>, seq<Token>)>)
    ensures r.Some? ==> |r.value.1| < |ts|
    decreases |ts|, 1
  {
    if ts == [] then None
    else if ts[0] == EndArray then Some(([], ts[1..]))
    else
      match ParseValue(ts)
      case None => None
      case Some((v, rest)) =>
        match ParseItems(rest)
        case None => None
        case Some((vs, rest')) => Some(([v] + vs, rest'))
  }

  /** Reads object members up to and including the closing `EndObject`. */
  function ParseMembers(ts: seq<Token>): (r: Option<(seq<Member>, seq<Token>)>)
    ensures r.Some? ==> |r.value.1| < |ts|
    decreases |ts|, 1
  {
    if ts == [] then None
    else if ts[0] == EndObject then Some(([], ts[1..]))
    else if !ts[0].PropertyName? then None
    else
      match ParseValue(ts[1..])
      case None => None
      case Some((v, rest)) =>
        match ParseMembers(rest)
        case None => None
        case Some((ms, rest')) => Some(([Member(ts[0].name, v)] + ms, rest'))
  }

  /** The calls a value can start with. */
  predicate StartsValue(t: Token) {
    t.NullValue? || t.StringValue? || Opens(t)
  }

  /** The writer calls of a value start with a value, never with a closing call or a name. */
  lemma {:induction false} TokensStartWithValue(j: Json)
    ensures Tokens(j) != [] && StartsValue(Tokens(j)[0])
  {
  }

  /**
   * The writer calls determine the value: reading back what writing `j` produced gives
   * `j` and leaves whatever follows untouched.
   */
  lemma {:induction false} ParseTokensRoundTrip(j: Json, rest: seq<Token>)
    ensures ParseValue(Tokens(j) + rest) == Some((j, rest))
    decreases j, 0
  {
    match j
    case JNull =>
    case JString(_) =>
    case JArray(items) =>
      ParseItemsRoundTrip(items, rest);
      assert (Tokens(j) + rest)[1..] == ItemTokens(items) + [EndArray] + rest;
    case JObject(members) =>
      ParseMembersRoundTrip(members, rest);
      assert (Tokens(j) + rest)[1..] == MemberTokens(members) + [EndObject] + rest;
  }

  lemma {:induction false} ParseItemsRoundTrip(items: seq<Json>, rest: seq<Token>)
    ensures ParseItems(ItemTokens(items) + [EndArray] + rest) == Some((items, rest))
    decreases items, 1
  {
    var ts := ItemTokens(items) + [EndArray] + rest;
    if items == [] {
      assert ts[1..] == rest;
    } else {
      var tail := ItemTokens(items[1..]) + [EndArray] + rest;
      assert ts == Tokens(items[0]) + tail;
      TokensStartWithValue(items[0]);
      ParseTokensRoundTrip(items[0], tail);
      ParseItemsRoundTrip(items[1..], rest);
      assert [items[0]] + items[1..] == items;
    }
  }

  lemma {:induction false} ParseMembersRoundTrip(members: seq<Member>, rest: seq<Token>)
    ensures ParseMembers(MemberTokens(members) + [EndObject] + rest) == Some((members, rest))
    decreases members, 1
  {
    var ts := MemberTokens(members) + [EndObject] + rest;
    if members == [] {
      assert ts[1..] == rest;
    } else {
      var m := members[0];
      var tail := MemberTokens(members[1..]) + [EndObject] + rest;
      assert ts == [PropertyName(m.key)] + (Tokens(m.value) + tail);
      assert ts[1..] == Tokens(m.value) + tail;
      ParseTokensRoundTrip(m.value, tail);
      ParseMembersRoundTrip(members[1..], rest);
      assert [Member(m.key, m.value)] + members[1..] == members;
    }
  }

  // ----- Layout -----

  /** A piece of output: the text of one writer call, or what the writer puts between two calls. */
  datatype Piece = Tok(token: Token) | Gap(text: string)

  /** Two spaces per level, `JsonTextWriter`'s default indentation. */
  function Indent(depth: nat): (r: string)
    ensures |r| == 2 * depth && forall i :: 0 <= i < |r| ==> r[i] == ' '
  {
    seq(2 * depth, _ => ' ')
  }

  predicate Opens(t: Token) {
    t == StartObject || t == StartArray
  }

  predicate Closes(t: Token) {
    t == EndObject || t == EndArray
  }

  /**
   * What the writer puts between call `prev` and call `next`, at nesting `depth` (the
   * number of containers open before `next`): a colon after a name, a comma between
   * two values or members, nothing after an opening or before a closing call. Indented
   * output adds a space after the colon and starts every value or member, and the
   * closing call of a non-empty container, on a new line indented to its level. A new
   * line is "\n" here; the writer itself emits the platform's line terminator.
   */
  function Separator(prev: Token, next: Token, depth: nat, pretty: bool): string {
    if prev.PropertyName? then (if pretty then ": " else ":")
    else if Closes(next) then
      (if Opens(prev) || !pretty then "" else "\n" + Indent(if depth > 0 then depth - 1 else 0))
    else if Opens(prev) then (if pretty then "\n" + Indent(depth) else "")
    else if pretty then ",\n" + Indent(depth)
    else ","
  }

  /** The nesting after call `t`. */
  function DepthAfter(t: Token, depth: nat): nat {
    if Opens(t) then depth + 1
    else if Closes(t) then (if depth > 0 then depth - 1 else 0)
    else depth
  }

  /** Lays out the calls `ts`, which follow call `prev` (if any) at nesting `depth`. */
  function LayoutFrom(prev: Option<Token>, ts: seq<Token>, depth: nat, pretty: bool): seq<Piece>
    decreases |ts|
  {
    if ts == [] then []
    else
      var gap := if prev.None? then "" else Separator(prev.value, ts[0], depth, pretty);
      [Gap(gap), Tok(ts[0])] + LayoutFrom(Some(ts[0]), ts[1..], DepthAfter(ts[0], depth), pretty)
  }

  /** The output for the writer calls `ts`; `pretty` selects `Formatting.Indented`. */
  function Layout(ts: seq<Token>, pretty: bool): seq<Piece> {
    LayoutFrom(None, ts, 0, pretty)
  }

  /** The writer calls whose text appears in `ps`, in order. */
  function Strip(ps: seq<Piece>): seq<Token> {
    if ps == [] then []
    else (if ps[0].Tok? then [ps[0].token] else []) + Strip(ps[1..])
  }

  /** `s` without its spaces and line breaks. */
  function WithoutWhitespace(s: string): (r: string)
    ensures forall i :: 0 <= i < |r| ==> r[i] != ' ' && r[i] != '\n'
  {
    if s == [] then []
    else (if s[0] == ' ' || s[0] == '\n' then [] else [s[0]]) + WithoutWhitespace(s[1..])
  }

  lemma {:induction false} WithoutWhitespaceConcat(a: string, b: string)
    ensures WithoutWhitespace(a + b) == WithoutWhitespace(a) + WithoutWhitespace(b)
    decreases |a|
  {
    if a != [] {
      assert (a + b)[0] == a[0] && (a + b)[1..] == a[1..] + b;
      WithoutWhitespaceConcat(a[1..], b);
    } else {
      assert a + b == b;
    }
  }

  lemma {:induction false} WithoutWhitespaceBlank(s: string)
    requires forall i :: 0 <= i < |s| ==> s[i] == ' ' || s[i] == '\n'
    ensures WithoutWhitespace(s) == []
    decreases |s|
  {
    if s != [] {
      WithoutWhitespaceBlank(s[1..]);
    }
  }

  /** An indented separator is the compact one with whitespace added. */
  lemma {:induction false} SeparatorOnlyAddsWhitespace(prev: Token, next: Token, depth: nat)
    ensures WithoutWhitespace(Separator(prev, next, depth, true)) == Separator(prev, next, depth, false)
  {
    var compact := Separator(prev, next, depth, false);
    var pretty := Separator(prev, next, depth, true);
    forall d: nat ensures WithoutWhitespace("\n" + Indent(d)) == [] {
      WithoutWhitespaceBlank("\n" + Indent(d));
    }
    if prev.PropertyName? {
      WithoutWhitespaceConcat(":", " ");
    } else if !Closes(next) && !Opens(prev) {
      WithoutWhitespaceConcat(",", "\n" + Indent(depth));
    }
  }

  /** Layout writes every call, in order, and nothing else in place of a call. */
  lemma {:induction false} LayoutKeepsTokens(prev: Option<Token>, ts: seq<Token>, depth: nat, pretty: bool)
    ensures Strip(LayoutFrom(prev, ts, depth, pretty)) == ts
    decreases |ts|
  {
    if ts != [] {
      var rest := LayoutFrom(Some(ts[0]), ts[1..], DepthAfter(ts[0], depth), pretty);
      var ps := LayoutFrom(prev, ts, depth, pretty);
      LayoutKeepsTokens(Some(ts[0]), ts[1..], DepthAfter(ts[0], depth), pretty);
      assert ps[1..] == [Tok(ts[0])] + rest;
      assert ps[1..][1..] == rest;
      assert Strip(ps) == Strip(ps[1..]) == [ts[0]] + Strip(rest);
    }
  }

  /**
   * Indented and compact layouts of the same calls line up piece by piece: the same
   * call at the same place, and between calls the same text up to whitespace.
   */
  lemma {:induction false} LayoutsDifferOnlyInWhitespace(prev: Option<Token>, ts: seq<Token>, depth: nat)
    ensures var p, c := LayoutFrom(prev, ts, depth, true), LayoutFrom(prev, ts, depth, false);
            && |p| == |c| == 2 * |ts|
            && forall i :: 0 <= i < |p| ==>
                 && (p[i].Tok? <==> c[i].Tok?)
                 && (p[i].Tok? ==> p[i] == c[i])
                 && (p[i].Gap? ==> WithoutWhitespace(p[i].text) == c[i].text)
    decreases |ts|
  {
    if ts != [] {
      var d' := DepthAfter(ts[0], depth);
      LayoutsDifferOnlyInWhitespace(Some(ts[0]), ts[1..], d');
      if prev.Some? {
        SeparatorOnlyAddsWhitespace(prev.value, ts[0], depth);
      }
      var p, c := LayoutFrom(prev, ts, depth, true), LayoutFrom(prev, ts, depth, false);
      var p', c' := LayoutFrom(Some(ts[0]), ts[1..], d', true), LayoutFrom(Some(ts[0]), ts[1..], d', false);
      assert forall i :: 2 <= i < |p| ==> p[i] == p'[i - 2] && c[i] == c'[i - 2];
    }
  }
}
