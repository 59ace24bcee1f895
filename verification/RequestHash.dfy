/**
 * The text an idempotency key's content hash is taken of (src/request_hash.rs): a printer that sorts keys at every
 * level, a parser that undoes it, and what two equal texts say about two requests.
 */
module RequestHash {
  import opened Wrappers
  import opened Json

  // ---------------------------------------------------------------------
  // The printer
  // ---------------------------------------------------------------------

  const HEX: string := "0123456789abcdef"

  /** One character inside a JSON string (section 7 of RFC 8259). */
  function Escaped(c: char): string {
    if c == '"' then "\\\""
    else if c == '\\' then "\\\\"
    else if c as int == 8 then "\\b"
    else if c as int == 9 then "\\t"
    else if c as int == 10 then "\\n"
    else if c as int == 12 then "\\f"
    else if c as int == 13 then "\\r"
    else if c as int < 32 then "\\u00" + [HEX[c as int / 16], HEX[c as int % 16]]
    else [c]
  }

  function EscapedText(text: string): string {
    if text == "" then "" else Escaped(text[0]) + EscapedText(text[1..])
  }

  function Quoted(text: string): string {
    "\"" + EscapedText(text) + "\""
  }

  /** `canonical_json`. */
  function CanonicalJson(v: Value): string
    decreases Size(v), 0
  {
    match v
    case Null => "null"
    case Bool(value) => if value then "true" else "false"
    case Number(digits) => digits
    case Str(text) => Quoted(text)
    case Array(items) => "[" + ItemTexts(items) + "]"
    case Object(members) => "{" + MemberTexts(InKeyOrder(members)) + "}"
  }

  function ItemTexts(items: seq<Value>): string
    decreases ItemsSize(items), 0
  {
    if items == [] then ""
    else CanonicalJson(items[0]) + (if |items| == 1 then "" else "," + ItemTexts(items[1..]))
  }

  function MemberTexts(members: seq<Member>): string
    decreases MembersSize(members), 0
  {
    if members == [] then ""
    else Quoted(members[0].key) + ":" + CanonicalJson(members[0].value)
         + (if |members| == 1 then "" else "," + MemberTexts(members[1..]))
  }

  /** What serde_json writes for a character in a string. */
  lemma EscapesAre(c: char)
    ensures c as int >= 32 && c != '"' && c != '\\' ==> Escaped(c) == [c]
    ensures c == '"' || c == '\\' ==> Escaped(c) == ['\\', c]
    ensures c as int < 32 && c as int != 8 && c as int != 9 && c as int != 10 && c as int != 12 && c as int != 13 ==>
              Escaped(c) == "\\u00" + [if c as int < 16 then '0' else '1', "0123456789abcdef"[c as int % 16]]
    ensures Escaped(8 as char) == "\\b" && Escaped(9 as char) == "\\t" && Escaped(10 as char) == "\\n"
    ensures Escaped(12 as char) == "\\f" && Escaped(13 as char) == "\\r"
  {
    if c as int < 32 {
      assert HEX[c as int / 16] == if c as int < 16 then '0' else '1';
    }
  }

  // ---------------------------------------------------------------------
  // The parser
  // ---------------------------------------------------------------------

  datatype Parsed<T> = Parsed(value: T, rest: string)

  function HexValue(c: char): Option<int> {
    if '0' <= c <= '9' then Some(c as int - '0' as int)
    else if 'a' <= c <= 'f' then Some(c as int - 'a' as int + 10)
    else None
  }

  /** The character at the start of `s`, escaped or plain. */
  function ParseChar(s: string): (r: Option<Parsed<char>>)
    ensures r.Some? ==> |r.value.rest| < |s|
  {
    if s == "" || s[0] == '"' then None
    else if s[0] != '\\' then Some(Parsed(s[0], s[1..]))
    else if |s| < 2 then None
    else if s[1] == '"' || s[1] == '\\' then Some(Parsed(s[1], s[2..]))
    else if s[1] == 'b' then Some(Parsed(8 as char, s[2..]))
    else if s[1] == 't' then Some(Parsed(9 as char, s[2..]))
    else if s[1] == 'n' then Some(Parsed(10 as char, s[2..]))
    else if s[1] == 'f' then Some(Parsed(12 as char, s[2..]))
    else if s[1] == 'r' then Some(Parsed(13 as char, s[2..]))
    else if s[1] == 'u' && 6 <= |s| && s[2] == '0' && s[3] == '0' && HexValue(s[4]).Some? && HexValue(s[5]).Some? then
      Some(Parsed((HexValue(s[4]).value * 16 + HexValue(s[5]).value) as char, s[6..]))
    else None
  }

  /** The rest of a string, after its opening quote. */
  function ParseText(s: string): (r: Option<Parsed<string>>)
    decreases |s|
    ensures r.Some? ==> |r.value.rest| < |s|
  {
    if s == "" then None
    else if s[0] == '"' then Some(Parsed("", s[1..]))
    else
      var c := ParseChar(s);
      if c.None? then None
      else
        var more := ParseText(c.value.rest);
        if more.None? then None else Some(Parsed([c.value.value] + more.value.value, more.value.rest))
  }

  /** How many characters at the start of `s` can belong to a number. */
  function NumberLength(s: string): (n: nat)
    ensures n <= |s|
  {
    if s == "" || !InNumber(s[0]) then 0 else 1 + NumberLength(s[1..])
  }

  predicate StartsWith(s: string, word: string) {
    |word| <= |s| && s[..|word|] == word
  }

  function ParseValue(s: string): (r: Option<Parsed<Value>>)
    decreases |s|, 0
    ensures r.Some? ==> |r.value.rest| < |s|
  {
    if s == "" then None
    else if StartsWith(s, "null") then Some(Parsed(Null, s[4..]))
    else if StartsWith(s, "true") then Some(Parsed(Bool(true), s[4..]))
    else if StartsWith(s, "false") then Some(Parsed(Bool(false), s[5..]))
    else if s[0] == '"' then
      var text := ParseText(s[1..]);
      if text.None? then None else Some(Parsed(Str(text.value.value), text.value.rest))
    else if StartsWith(s, "[]") then Some(Parsed(Array([]), s[2..]))
    else if s[0] == '[' then
      var items := ParseItems(s[1..]);
      if items.None? then None else Some(Parsed(Array(items.value.value), items.value.rest))
    else if StartsWith(s, "{}") then Some(Parsed(Object([]), s[2..]))
    else if s[0] == '{' then
      var members := ParseMembers(s[1..]);
      if members.None? then None else Some(Parsed(Object(members.value.value), members.value.rest))
    else
      var n := NumberLength(s);
      if n == 0 then None else Some(Parsed(Number(s[..n]), s[n..]))
  }

  /** The items of an array, after its opening bracket. */
  function ParseItems(s: string): (r: Option<Parsed<seq<Value>>>)
    decreases |s|, 1
    ensures r.Some? ==> |r.value.rest| < |s|
  {
    var first := ParseValue(s);
    if first.None? || first.value.rest == "" then None
    else if first.value.rest[0] == ']' then Some(Parsed([first.value.value], first.value.rest[1..]))
    else if first.value.rest[0] == ',' then
      var more := ParseItems(first.value.rest[1..]);
      if more.None? then None else Some(Parsed([first.value.value] + more.value.value, more.value.rest))
    else None
  }

  /** The members of an object, after its opening brace. */
  function ParseMembers(s: string): (r: Option<Parsed<seq<Member>>>)
    decreases |s|, 1
    ensures r.Some? ==> |r.value.rest| < |s|
  {
    if s == "" || s[0] != '"' then None
    else
      var key := ParseText(s[1..]);
      if key.None? || key.value.rest == "" || key.value.rest[0] != ':' then None
      else
        var first := ParseValue(key.value.rest[1..]);
        if first.None? || first.value.rest == "" then None
        else
          var m := Member(key.value.value, first.value.value);
          if first.value.rest[0] == '}' then Some(Parsed([m], first.value.rest[1..]))
          else if first.value.rest[0] == ',' then
            var more := ParseMembers(first.value.rest[1..]);
            if more.None? then None else Some(Parsed([m] + more.value.value, more.value.rest))
          else None
  }

  // ---------------------------------------------------------------------
  // The parser undoes the printer
  // ---------------------------------------------------------------------

  lemma CharReads(c: char, rest: string)
    ensures ParseChar(Escaped(c) + rest) == Some(Parsed(c, rest))
    ensures Escaped(c) != "" && Escaped(c)[0] != '"'
  {
    if c as int < 32 {
      HexReads(c as int / 16);
      HexReads(c as int % 16);
    }
  }

  lemma HexReads(n: nat)
    requires n < 16
    ensures HexValue(HEX[n]) == Some(n)
  {
  }

  lemma {:induction false} TextReads(text: string, rest: string)
    ensures ParseText(EscapedText(text) + "\"" + rest) == Some(Parsed(text, rest))
  {
    hide ParseChar, Escaped;
    if text != "" {
      var tail := EscapedText(text[1..]) + "\"" + rest;
      assert EscapedText(text) + "\"" + rest == Escaped(text[0]) + tail;
      CharReads(text[0], tail);
      TextReads(text[1..], rest);
      assert (Escaped(text[0]) + tail)[0] == Escaped(text[0])[0];
      assert [text[0]] + text[1..] == text;
    } else {
      assert EscapedText(text) + "\"" + rest == "\"" + rest;
      assert ("\"" + rest)[1..] == rest;
    }
  }

  lemma {:induction false} NumberReads(digits: string, rest: string)
    requires forall c :: c in digits ==> InNumber(c)
    requires rest == "" || !InNumber(rest[0])
    ensures NumberLength(digits + rest) == |digits|
  {
    if digits != "" {
      assert digits[0] in digits;
      assert (digits + rest)[1..] == digits[1..] + rest;
      NumberReads(digits[1..], rest);
    }
  }

  /** Nothing that could belong to a number before it. */
  predicate Closed(rest: string) {
    rest == "" || !InNumber(rest[0])
  }

  lemma FirstCharacter(v: Value)
    requires Proper(v)
    ensures CanonicalJson(v) != "" && CanonicalJson(v)[0] != ']'
  {
  }

  lemma NotWord(s: string, word: string)
    requires word != "" && (s == "" || s[0] != word[0])
    ensures !StartsWith(s, word)
  {
  }

  /** How the parser goes on after a first character that is not a letter. */
  lemma Branch(s: string)
    requires s != "" && s[0] != 'n' && s[0] != 't' && s[0] != 'f'
    ensures s[0] == '"' ==> ParseValue(s) == var text := ParseText(s[1..]);
              if text.None? then None else Some(Parsed(Str(text.value.value), text.value.rest))
    ensures s[0] == '[' && !StartsWith(s, "[]") ==> ParseValue(s) == var items := ParseItems(s[1..]);
              if items.None? then None else Some(Parsed(Array(items.value.value), items.value.rest))
    ensures s[0] == '{' && !StartsWith(s, "{}") ==> ParseValue(s) == var members := ParseMembers(s[1..]);
              if members.None? then None else Some(Parsed(Object(members.value.value), members.value.rest))
    ensures s[0] == '[' && StartsWith(s, "[]") ==> ParseValue(s) == Some(Parsed(Array([]), s[2..]))
    ensures s[0] == '{' && StartsWith(s, "{}") ==> ParseValue(s) == Some(Parsed(Object([]), s[2..]))
    ensures InNumber(s[0]) ==> ParseValue(s) == var n := NumberLength(s);
              if n == 0 then None else Some(Parsed(Number(s[..n]), s[n..]))
  {
    NotWord(s, "null");
    NotWord(s, "true");
    NotWord(s, "false");
    if s[0] != '[' {
      NotWord(s, "[]");
    }
    if s[0] != '{' {
      NotWord(s, "{}");
    }
  }

  /** The parser recovers the value from its canonical text, with keys in order. */
  lemma {:induction false} CanonicalReads(v: Value, rest: string)
    requires Proper(v) && Closed(rest)
    ensures ParseValue(CanonicalJson(v) + rest) == Some(Parsed(Sorted(v), rest))
    decreases Size(v), 0
  {
    hide Quoted, ParseText, ParseValue, ItemTexts, MemberTexts, ParseItems, ParseMembers;
    hide InKeyOrder, SortedItems, SortedValues, NumberLength, StartsWith, InNumber;
    match v
    case Array(items) =>
      if items == [] {
        EmptyReads(rest);
      } else {
        ItemsRead(items, rest);
        ArrayReads(items, rest);
      }
    case Object(members) =>
      var ordered := InKeyOrder(members);
      SameElements(ordered, members);
      if members == [] {
        EmptyReads(rest);
      } else {
        AllProper(members);
        MembersRead(ordered, rest);
        ObjectReads(ordered, rest);
      }
    case Str(text) => StringReads(text, rest);
    case Number(digits) => DigitsRead(digits, rest);
    case Null => WordReads(v, rest);
    case Bool(_) => WordReads(v, rest);
  }

  lemma AllProper(members: seq<Member>)
    requires Proper(Object(members))
    ensures forall m :: m in members ==> Proper(m.value)
  {
  }

  lemma WordReads(v: Value, rest: string)
    requires v.Null? || v.Bool?
    ensures ParseValue(CanonicalJson(v) + rest) == Some(Parsed(v, rest))
  {
    var s := CanonicalJson(v) + rest;
    if v.Null? {
      assert s[..4] == "null" && s[4..] == rest;
    } else {
      NotWord(s, "null");
      if v.value {
        assert s[..4] == "true" && s[4..] == rest;
      } else {
        NotWord(s, "true");
        assert s[..5] == "false" && s[5..] == rest;
      }
    }
  }

  lemma EmptyReads(rest: string)
    ensures ParseValue("[" + ItemTexts([]) + "]" + rest) == Some(Parsed(Array(SortedItems([])), rest))
    ensures ParseValue("{" + MemberTexts(InKeyOrder([])) + "}" + rest)
            == Some(Parsed(Object(SortedValues(InKeyOrder([]))), rest))
  {
    var s := "[" + ItemTexts([]) + "]" + rest;
    assert s == "[]" + rest;
    assert s[..2] == "[]" && s[2..] == rest;
    Branch(s);
    var t := "{" + MemberTexts(InKeyOrder([])) + "}" + rest;
    assert t == "{}" + rest;
    assert t[..2] == "{}" && t[2..] == rest;
    Branch(t);
  }

  lemma StringReads(text: string, rest: string)
    ensures ParseValue(Quoted(text) + rest) == Some(Parsed(Str(text), rest))
  {
    hide ParseText, EscapedText;
    var s := Quoted(text) + rest;
    assert s[1..] == EscapedText(text) + "\"" + rest;
    TextReads(text, rest);
    Branch(s);
  }

  lemma DigitsRead(digits: string, rest: string)
    requires IsNumberText(digits) && Closed(rest)
    ensures ParseValue(digits + rest) == Some(Parsed(Number(digits), rest))
  {
    var s := digits + rest;
    NumberReads(digits, rest);
    assert s[..|digits|] == digits && s[|digits|..] == rest;
    Branch(s);
  }

  lemma ArrayReads(items: seq<Value>, rest: string)
    requires items != [] && Proper(Array(items))
    requires ParseItems(ItemTexts(items) + "]" + rest) == Some(Parsed(SortedItems(items), rest))
    ensures ParseValue("[" + ItemTexts(items) + "]" + rest) == Some(Parsed(Array(SortedItems(items)), rest))
  {
    hide CanonicalJson, ParseItems, SortedItems, ParseValue;
    var s := "[" + ItemTexts(items) + "]" + rest;
    FirstCharacter(items[0]);
    assert s[1] != ']';
    assert s[1..] == ItemTexts(items) + "]" + rest;
    Branch(s);
  }

  lemma ObjectReads(members: seq<Member>, rest: string)
    requires members != []
    requires ParseMembers(MemberTexts(members) + "}" + rest) == Some(Parsed(SortedValues(members), rest))
    ensures ParseValue("{" + MemberTexts(members) + "}" + rest) == Some(Parsed(Object(SortedValues(members)), rest))
  {
    hide CanonicalJson, ParseMembers, SortedValues, ParseValue, EscapedText, MemberTexts;
    var s := "{" + MemberTexts(members) + "}" + rest;
    MembersStart(members);
    assert s[1] == '"';
    assert s[1..] == MemberTexts(members) + "}" + rest;
    Branch(s);
  }

  lemma MembersStart(members: seq<Member>)
    requires members != []
    ensures MemberTexts(members) != "" && MemberTexts(members)[0] == '"'
  {
    hide CanonicalJson, EscapedText;
    assert Quoted(members[0].key)[0] == '"';
  }

  lemma {:induction false} ItemsRead(items: seq<Value>, rest: string)
    requires items != [] && forall i :: 0 <= i < |items| ==> Proper(items[i])
    ensures ParseItems(ItemTexts(items) + "]" + rest) == Some(Parsed(SortedItems(items), rest))
    decreases ItemsSize(items), 0
  {
    hide CanonicalJson, ParseValue, Proper, Sorted;
    var more := items[1..];
    var tail := if |items| == 1 then "]" + rest else "," + (ItemTexts(more) + "]" + rest);
    assert ItemTexts(items) + "]" + rest == CanonicalJson(items[0]) + tail;
    CanonicalReads(items[0], tail);
    if |items| == 1 {
      assert tail[1..] == rest;
      assert SortedItems(items) == [Sorted(items[0])];
    } else {
      ItemsRead(more, rest);
      assert tail[1..] == ItemTexts(more) + "]" + rest;
    }
  }

  lemma KeyReads(key: string, rest: string)
    ensures var s := Quoted(key) + rest;
            && s[0] == '"' && ParseText(s[1..]) == Some(Parsed(key, rest))
  {
    hide ParseText, EscapedText;
    var s := Quoted(key) + rest;
    assert s[1..] == EscapedText(key) + "\"" + rest;
    TextReads(key, rest);
  }

  lemma {:induction false} MembersRead(members: seq<Member>, rest: string)
    requires members != [] && forall i :: 0 <= i < |members| ==> Proper(members[i].value)
    ensures ParseMembers(MemberTexts(members) + "}" + rest) == Some(Parsed(SortedValues(members), rest))
    decreases MembersSize(members), 0
  {
    hide CanonicalJson, ParseValue, Proper, Sorted, ParseText, Quoted, ParseMembers;
    var more := members[1..];
    var tail := if |members| == 1 then "}" + rest else "," + (MemberTexts(more) + "}" + rest);
    var value := CanonicalJson(members[0].value) + tail;
    assert MemberTexts(members) + "}" + rest == Quoted(members[0].key) + (":" + value);
    KeyReads(members[0].key, ":" + value);
    CanonicalReads(members[0].value, tail);
    MemberReads(Quoted(members[0].key) + (":" + value), members[0].key, value, Sorted(members[0].value), tail);
    if |members| == 1 {
      assert tail[1..] == rest;
      assert SortedValues(members) == [Member(members[0].key, Sorted(members[0].value))];
    } else {
      MembersRead(more, rest);
      assert tail[1..] == MemberTexts(more) + "}" + rest;
    }
  }

  /** How the parser goes on after one member. */
  lemma MemberReads(s: string, key: string, text: string, value: Value, tail: string)
    requires s != "" && s[0] == '"' && tail != ""
    requires ParseText(s[1..]) == Some(Parsed(key, ":" + text))
    requires ParseValue(text) == Some(Parsed(value, tail))
    ensures ParseMembers(s)
            == if tail[0] == '}' then Some(Parsed([Member(key, value)], tail[1..]))
               else if tail[0] == ',' then
                 var more := ParseMembers(tail[1..]);
                 if more.None? then None else Some(Parsed([Member(key, value)] + more.value.value, more.value.rest))
               else None
  {
    hide ParseText, ParseValue;
    assert (":" + text)[1..] == text;
  }

  // ---------------------------------------------------------------------
  // Texts and values
  // ---------------------------------------------------------------------

  /** Sorting first does not change the text. */
  lemma {:induction false} SortedPrintsAlike(v: Value)
    requires Proper(v)
    ensures CanonicalJson(Sorted(v)) == CanonicalJson(v)
    decreases Size(v), 0
  {
    hide ItemTexts, MemberTexts, InKeyOrder, SortedItems, SortedValues;
    match v
    case Array(items) => SortedItemsPrint(items);
    case Object(members) =>
      var ordered := InKeyOrder(members);
      SameElements(ordered, members);
      AllProper(members);
      SortedMembersPrint(ordered);
      OrderIncreases(members);
      SortedKeepsOrder(ordered);
      AlreadyOrdered(SortedValues(ordered));
    case _ =>
  }

  lemma SortedKeepsOrder(members: seq<Member>)
    requires Increasing(members)
    ensures Increasing(SortedValues(members))
  {
  }

  lemma AlreadyOrdered(members: seq<Member>)
    requires Increasing(members)
    ensures InKeyOrder(members) == members
  {
    IncreasingDistinct(members);
    OrderIncreases(members);
    SameElements(InKeyOrder(members), members);
    OneOrder(InKeyOrder(members), members);
  }

  lemma {:induction false} SortedItemsPrint(items: seq<Value>)
    requires forall i :: 0 <= i < |items| ==> Proper(items[i])
    ensures ItemTexts(SortedItems(items)) == ItemTexts(items)
    decreases ItemsSize(items), 0
  {
    hide CanonicalJson, Sorted, Proper;
    if items != [] {
      SortedPrintsAlike(items[0]);
      SortedItemsPrint(items[1..]);
      assert SortedItems(items)[1..] == SortedItems(items[1..]);
    }
  }

  lemma {:induction false} SortedMembersPrint(members: seq<Member>)
    requires forall i :: 0 <= i < |members| ==> Proper(members[i].value)
    ensures MemberTexts(SortedValues(members)) == MemberTexts(members)
    decreases MembersSize(members), 0
  {
    hide CanonicalJson, Sorted, Proper, Quoted;
    if members != [] {
      SortedPrintsAlike(members[0].value);
      SortedMembersPrint(members[1..]);
      assert SortedValues(members)[1..] == SortedValues(members[1..]);
    }
  }

  /** Two values print alike exactly when they are equal up to key order. */
  lemma PrintAlikeIffSame(a: Value, b: Value)
    requires Proper(a) && Proper(b)
    ensures CanonicalJson(a) == CanonicalJson(b) <==> Same(a, b)
  {
    hide CanonicalJson, ParseValue, Sorted, Same, Proper;
    CanonicalReads(a, "");
    CanonicalReads(b, "");
    assert CanonicalJson(a) + "" == CanonicalJson(a) && CanonicalJson(b) + "" == CanonicalJson(b);
    SortedPrintsAlike(a);
    SortedPrintsAlike(b);
    SameIffSorted(a, b);
  }

  // ---------------------------------------------------------------------
  // Requests
  // ---------------------------------------------------------------------

  /** A reservation as the request's content shows it. */
  datatype Place = Place(repository: string, baseRef: string, headRef: string)

  /** What an enqueue request asks for; `dispatch` is the dispatch as a JSON value. */
  datatype Content = Content(
    dispatch: Value, repository: Option<Place>, runAt: Option<string>, expireAfter: Option<nat>)

  function Dropping(members: seq<Member>, key: string): seq<Member> {
    if members == [] then []
    else (if members[0].key == key then [] else [members[0]]) + Dropping(members[1..], key)
  }

  function WithoutRequestedAt(dispatch: Value): Value {
    if dispatch.Object? then Object(Dropping(dispatch.members, "requested_at")) else dispatch
  }

  function Decimal(n: nat): (s: string)
    ensures s != "" && forall c :: c in s ==> IsDigit(c)
  {
    if n < 10 then [('0' as int + n) as char] else Decimal(n / 10) + [('0' as int + n % 10) as char]
  }

  function PlaceJson(place: Option<Place>): Value {
    if place.None? then Null
    else Object([Member("repository", Str(place.value.repository)), Member("base_ref", Str(place.value.baseRef)),
                 Member("head_ref", Str(place.value.headRef))])
  }

  function ContentJson(c: Content): Value {
    Object([Member("dispatch", WithoutRequestedAt(c.dispatch)),
            Member("repository", PlaceJson(c.repository)),
            Member("run_at", if c.runAt.None? then Null else Str(c.runAt.value)),
            Member("expire_after_secs", if c.expireAfter.None? then Null else Number(Decimal(c.expireAfter.value)))])
  }

  /** The text `enqueue_request_hash` takes the SHA-256 of. */
  function Preimage(c: Content): string {
    CanonicalJson(ContentJson(c))
  }

  /** The number that decimal digits stand for. */
  ghost function ReadDecimal(s: string): int {
    if s == "" then 0 else ReadDecimal(s[..|s| - 1]) * 10 + (s[|s| - 1] as int - '0' as int)
  }

  lemma {:induction false} DecimalReads(n: nat)
    ensures ReadDecimal(Decimal(n)) == n
    ensures n > 0 ==> Decimal(n)[0] != '0'
  {
    var s := Decimal(n);
    if n < 10 {
      assert s[..0] == "";
    } else {
      DecimalReads(n / 10);
      assert s[..|s| - 1] == Decimal(n / 10);
    }
  }

  lemma {:induction false} DecimalsDiffer(m: nat, n: nat)
    requires Decimal(m) == Decimal(n)
    ensures m == n
  {
    var s, t := Decimal(m), Decimal(n);
    assert s[|s| - 1] == ('0' as int + m % 10) as char && t[|t| - 1] == ('0' as int + n % 10) as char;
    if m >= 10 && n >= 10 {
      assert s[..|s| - 1] == Decimal(m / 10) && t[..|t| - 1] == Decimal(n / 10);
      DecimalsDiffer(m / 10, n / 10);
    }
  }

  lemma {:induction false} DroppingProper(members: seq<Member>, key: string)
    requires Proper(Object(members))
    ensures Proper(Object(Dropping(members, key)))
    ensures forall m :: m in Dropping(members, key) ==> m in members && m.key != key
  {
    if members != [] {
      assert Proper(Object(members[1..]));
      DroppingProper(members[1..], key);
    }
  }

  // ---------------------------------------------------------------------
  // The text, spelled out
  // ---------------------------------------------------------------------

  /** A member's text, for a key of plain characters. */
  ghost function Field(key: string, text: string): string {
    "\"" + key + "\":" + text
  }

  ghost predicate IsPlain(text: string) {
    forall i :: 0 <= i < |text| ==> text[i] as int >= 32 && text[i] != '"' && text[i] != '\\'
  }

  lemma {:induction false} PlainText(text: string)
    requires IsPlain(text)
    ensures EscapedText(text) == text
  {
    if text != "" {
      EscapesAre(text[0]);
      PlainText(text[1..]);
      assert text == [text[0]] + text[1..];
    }
  }

  lemma PlainMember(m: Member)
    requires IsPlain(m.key)
    ensures Quoted(m.key) + ":" + CanonicalJson(m.value) == Field(m.key, CanonicalJson(m.value))
  {
    hide CanonicalJson, IsPlain;
    PlainText(m.key);
  }

  lemma LastMember(m: Member)
    requires IsPlain(m.key)
    ensures MemberTexts([m]) == Field(m.key, CanonicalJson(m.value))
  {
    hide CanonicalJson, IsPlain, Quoted, Field;
    PlainMember(m);
  }

  lemma NextMember(m: Member, rest: seq<Member>)
    requires IsPlain(m.key) && rest != []
    ensures MemberTexts([m] + rest) == Field(m.key, CanonicalJson(m.value)) + "," + MemberTexts(rest)
  {
    hide CanonicalJson, IsPlain, Quoted, Field;
    PlainMember(m);
    assert ([m] + rest)[1..] == rest;
  }

  lemma Inserts(m: Member, sorted: seq<Member>)
    requires sorted != []
    ensures Insert(m, sorted)
            == if Before(m.key, sorted[0].key) then [m] + sorted else [sorted[0]] + Insert(m, sorted[1..])
    ensures Insert(m, []) == [m]
  {
  }

  lemma Orders(m: Member, rest: seq<Member>)
    ensures InKeyOrder([m] + rest) == Insert(m, InKeyOrder(rest))
    ensures InKeyOrder([]) == []
  {
    assert ([m] + rest)[1..] == rest;
  }

  /** Three members of which the last stands first. */
  lemma LastFirst(a: Member, b: Member, c: Member)
    requires Before(a.key, b.key) && Before(b.key, c.key)
    ensures InKeyOrder([c] + ([a] + [b])) == [a] + ([b] + [c])
  {
    hide Before, Insert, InKeyOrder;
    Orders(b, []);
    assert [b] + [] == [b];
    Inserts(b, [b]);
    Orders(a, [b]);
    Orders(c, [a] + [b]);
    Inserts(a, [b]);
    BeforeTransitive(a.key, b.key, c.key);
    BeforeAsymmetric(a.key, c.key);
    BeforeAsymmetric(b.key, c.key);
    Inserts(c, [a] + [b]);
    assert ([a] + [b])[1..] == [b];
    Inserts(c, [b]);
    assert [b][1..] == [];
  }

  /** Four members of which the second stands last. */
  lemma SecondLast(a: Member, b: Member, c: Member, d: Member)
    requires Before(a.key, b.key) && Before(b.key, c.key) && Before(c.key, d.key)
    ensures InKeyOrder([a] + ([c] + ([d] + [b]))) == [a] + ([b] + ([c] + [d]))
  {
    hide Before, Insert, InKeyOrder;
    Orders(b, []);
    assert [b] + [] == [b];
    Inserts(b, [b]);
    Orders(d, [b]);
    Orders(c, [d] + [b]);
    Orders(a, [c] + ([d] + [b]));
    BeforeTransitive(b.key, c.key, d.key);
    BeforeAsymmetric(b.key, d.key);
    BeforeAsymmetric(b.key, c.key);
    Inserts(d, [b]);
    assert [b][1..] == [];
    Inserts(c, [b] + [d]);
    assert ([b] + [d])[1..] == [d];
    Inserts(c, [d]);
    Inserts(a, [b] + ([c] + [d]));
  }

  lemma PlaceKeys()
    ensures Before("base_ref", "head_ref") && Before("head_ref", "repository")
    ensures IsPlain("base_ref") && IsPlain("head_ref") && IsPlain("repository")
  {
    BeforeIs("base_ref", "head_ref", 0);
    BeforeIs("head_ref", "repository", 0);
  }

  lemma ContentKeys()
    ensures Before("dispatch", "expire_after_secs") && Before("expire_after_secs", "repository")
    ensures Before("repository", "run_at")
    ensures IsPlain("dispatch") && IsPlain("expire_after_secs") && IsPlain("repository") && IsPlain("run_at")
  {
    BeforeIs("dispatch", "expire_after_secs", 0);
    BeforeIs("expire_after_secs", "repository", 0);
    BeforeIs("repository", "run_at", 1);
  }

  lemma ObjectText(members: seq<Member>)
    ensures CanonicalJson(Object(members)) == "{" + MemberTexts(InKeyOrder(members)) + "}"
  {
  }

  /** A reservation's text. */
  lemma PlaceText(place: Place)
    ensures CanonicalJson(PlaceJson(Some(place)))
            == "{" + (Field("base_ref", Quoted(place.baseRef)) + ","
                      + (Field("head_ref", Quoted(place.headRef)) + ","
                         + Field("repository", Quoted(place.repository)))) + "}"
  {
    hide CanonicalJson, MemberTexts, Quoted, InKeyOrder, Field, Before, IsPlain;
    var base, head := Member("base_ref", Str(place.baseRef)), Member("head_ref", Str(place.headRef));
    var repository := Member("repository", Str(place.repository));
    PlaceKeys();
    LastFirst(base, head, repository);
    assert PlaceJson(Some(place)).members == [repository] + ([base] + [head]);
    ObjectText([repository] + ([base] + [head]));
    ScalarTexts(place.repository, 0);
    ScalarTexts(place.baseRef, 0);
    ScalarTexts(place.headRef, 0);
    LastMember(repository);
    NextMember(head, [repository]);
    NextMember(base, [head] + [repository]);
  }

  /** The text an add's content hash is taken of, spelled out. */
  lemma PreimageText(c: Content)
    ensures var expire := if c.expireAfter.None? then "null" else Decimal(c.expireAfter.value);
            var repository := if c.repository.None? then "null" else CanonicalJson(PlaceJson(c.repository));
            var runAt := if c.runAt.None? then "null" else Quoted(c.runAt.value);
            Preimage(c) == "{" + (Field("dispatch", CanonicalJson(WithoutRequestedAt(c.dispatch))) + ","
                                  + (Field("expire_after_secs", expire) + ","
                                     + (Field("repository", repository) + "," + Field("run_at", runAt)))) + "}"
  {
    hide CanonicalJson, MemberTexts, InKeyOrder, WithoutRequestedAt, Decimal, Quoted, Field, Before, IsPlain;
    var members := ContentJson(c).members;
    var dispatch, repository, runAt, expire := members[0], members[1], members[2], members[3];
    ContentKeys();
    SecondLast(dispatch, expire, repository, runAt);
    assert members == [dispatch] + ([repository] + ([runAt] + [expire]));
    ObjectText(members);
    ScalarTexts(if c.runAt.Some? then c.runAt.value else "", if c.expireAfter.Some? then c.expireAfter.value else 0);
    LastMember(runAt);
    NextMember(repository, [runAt]);
    NextMember(expire, [repository] + [runAt]);
    NextMember(dispatch, [expire] + ([repository] + [runAt]));
  }

  lemma ScalarTexts(text: string, n: nat)
    ensures CanonicalJson(Null) == "null"
    ensures CanonicalJson(Number(Decimal(n))) == Decimal(n)
    ensures CanonicalJson(Str(text)) == Quoted(text)
  {
  }

  lemma ContentProper(c: Content)
    requires Proper(c.dispatch)
    ensures Proper(ContentJson(c))
  {
    if c.dispatch.Object? {
      DroppingProper(c.dispatch.members, "requested_at");
    }
  }

  lemma SamePlace(a: Option<Place>, b: Option<Place>)
    ensures Same(PlaceJson(a), PlaceJson(b)) <==> a == b
  {
    if a.Some? && b.Some? {
      var x, y := PlaceJson(a).members, PlaceJson(b).members;
      SameInOrder(x, y);
      assert Same(x[0].value, y[0].value) <==> a.value.repository == b.value.repository;
      assert Same(x[1].value, y[1].value) <==> a.value.baseRef == b.value.baseRef;
      assert Same(x[2].value, y[2].value) <==> a.value.headRef == b.value.headRef;
    }
  }

  /** Two objects whose keys stand in the same order. */
  lemma SameInOrder(a: seq<Member>, b: seq<Member>)
    requires |a| == |b| && DistinctKeys(b)
    requires forall i :: 0 <= i < |a| ==> a[i].key == b[i].key
    ensures Same(Object(a), Object(b)) <==> forall i :: 0 <= i < |a| ==> Same(a[i].value, b[i].value)
  {
    hide Same;
    ObjectsPair(a, b);
    forall i | 0 <= i < |a|
      ensures Paired(a[i], b) <==> Same(a[i].value, b[i].value)
    {
      PairedAt(a[i], b, i);
    }
  }

  lemma ObjectsPair(a: seq<Member>, b: seq<Member>)
    ensures Same(Object(a), Object(b)) <==> |a| == |b| && forall i :: 0 <= i < |a| ==> Paired(a[i], b)
  {
  }

  lemma PairedAt(m: Member, b: seq<Member>, i: nat)
    requires DistinctKeys(b) && i < |b| && m.key == b[i].key
    ensures Paired(m, b) <==> Same(m.value, b[i].value)
  {
    hide Same;
    if Paired(m, b) {
      var j :| 0 <= j < |b| && m.key == b[j].key && Same(m.value, b[j].value);
      assert b[j].key == b[i].key;
    }
  }

  /** The requests agree on everything but the time they were made. */
  ghost predicate SameRequest(a: Content, b: Content) {
    && Same(WithoutRequestedAt(a.dispatch), WithoutRequestedAt(b.dispatch))
    && a.repository == b.repository && a.runAt == b.runAt && a.expireAfter == b.expireAfter
  }

  /**
   * Two requests hash the same text exactly when they agree on dispatch without `requested_at` (up to the order of
   * object keys), repository, `run_at` and `expire_after_secs`.
   */
  lemma PreimagesAgree(a: Content, b: Content)
    requires Proper(a.dispatch) && Proper(b.dispatch)
    ensures Preimage(a) == Preimage(b) <==> SameRequest(a, b)
  {
    hide CanonicalJson, Proper, WithoutRequestedAt, PlaceJson, Decimal;
    ContentProper(a);
    ContentProper(b);
    PrintAlikeIffSame(ContentJson(a), ContentJson(b));
    var x, y := ContentJson(a).members, ContentJson(b).members;
    assert DistinctKeys(y);
    SameInOrder(x, y);
    SamePlace(a.repository, b.repository);
    if a.expireAfter.Some? && b.expireAfter.Some? && Decimal(a.expireAfter.value) == Decimal(b.expireAfter.value) {
      DecimalsDiffer(a.expireAfter.value, b.expireAfter.value);
    }
    assert Same(x[0].value, y[0].value) <==> Same(WithoutRequestedAt(a.dispatch), WithoutRequestedAt(b.dispatch));
    assert Same(x[1].value, y[1].value) <==> a.repository == b.repository;
    assert Same(x[2].value, y[2].value) <==> a.runAt == b.runAt;
    assert Same(x[3].value, y[3].value) <==> a.expireAfter == b.expireAfter;
  }

  lemma DroppingCons(m: Member, rest: seq<Member>, key: string)
    ensures Dropping([m] + rest, key) == (if m.key == key then [] else [m]) + Dropping(rest, key)
  {
    assert ([m] + rest)[1..] == rest;
  }

  lemma NothingDropped(key: string)
    ensures Dropping([], key) == []
  {
  }

  lemma {:induction false} DroppingConcat(a: seq<Member>, b: seq<Member>, key: string)
    ensures Dropping(a + b, key) == Dropping(a, key) + Dropping(b, key)
  {
    hide Dropping;
    if a == [] {
      assert a + b == b;
      NothingDropped(key);
    } else {
      DroppingConcat(a[1..], b, key);
      DroppingCons(a[0], a[1..], key);
      DroppingCons(a[0], a[1..] + b, key);
      assert a == [a[0]] + a[1..] && a + b == [a[0]] + (a[1..] + b);
    }
  }

  /** A retry stamped with another time, or with none, hashes the same text. */
  lemma StampIgnored(c: Content, before: seq<Member>, stamp: Value, after: seq<Member>)
    requires c.dispatch == Object(before + ([Member("requested_at", stamp)] + after))
    ensures Preimage(c) == Preimage(c.(dispatch := Object(before + after)))
  {
    hide Dropping, CanonicalJson;
    DroppingConcat(before, [Member("requested_at", stamp)] + after, "requested_at");
    DroppingCons(Member("requested_at", stamp), after, "requested_at");
    DroppingConcat(before, after, "requested_at");
    assert [] + Dropping(after, "requested_at") == Dropping(after, "requested_at");
  }
}
