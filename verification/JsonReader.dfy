/**
  A reader of the JSON texts that the requests answer with, independent of how they are written: what a
  client gets from them.
 */
module JsonReader {
  import opened LogStore
  import opened MacText
  import opened Json

  // ---- Numbers ------------------------------------------------------------------------------

  predicate Digits(s: string) {
    s != "" && forall i :: 0 <= i < |s| ==> '0' <= s[i] <= '9'
  }

  /** The number that decimal digits stand for. */
  function Value(s: string): (n: nat)
    requires forall i :: 0 <= i < |s| ==> '0' <= s[i] <= '9'
  {
    if s == "" then 0 else Value(s[..|s| - 1]) * 10 + (s[|s| - 1] as int - '0' as int)
  }

  function ReadInt(s: string): Option<int> {
    if Digits(s) then Some(Value(s))
    else if s != "" && s[0] == '-' && Digits(s[1..]) then Some(-(Value(s[1..]) as int))
    else None
  }

  lemma {:induction false} DecDigits(n: nat)
    ensures Digits(Dec(n)) && Value(Dec(n)) == n
  {
    var d := "0123456789";
    assert forall k :: 0 <= k < 10 ==> d[k] as int == '0' as int + k;
    if n < 10 {
      assert Dec(n) == [d[n]] && Dec(n)[..0] == "";
    } else {
      DecDigits(n / 10);
      assert Dec(n) == Dec(n / 10) + [d[n % 10]] && Dec(n)[..|Dec(n)| - 1] == Dec(n / 10);
    }
  }

  /** Every number is read back from its decimal text. */
  lemma {:induction false} DecRoundTrip(n: int)
    ensures ReadInt(Dec(n)) == Some(n)
    ensures PlainValue(Dec(n))
  {
    if n >= 0 {
      DecDigits(n);
    } else {
      DecDigits(-n);
      assert Dec(n) == "-" + Dec(-n) && Dec(n)[1..] == Dec(-n);
    }
  }

  // ---- Objects ------------------------------------------------------------------------------

  /** A text without the characters that end a value. */
  predicate PlainValue(s: string) {
    forall i :: 0 <= i < |s| ==> s[i] != ',' && s[i] != '}' && s[i] != ' '
  }

  datatype Field = Field(name: string, value: string)

  datatype Fields = Bad | Read(fields: seq<Field>, rest: string)

  /** The length of the text before the first of some characters. */
  function UpTo(s: string, stops: string): (n: nat)
    ensures n <= |s| && (forall i :: 0 <= i < n ==> s[i] !in stops) && (n < |s| ==> s[n] in stops)
  {
    if s == "" || s[0] in stops then 0 else 1 + UpTo(s[1..], stops)
  }

  function AfterSpace(s: string): string {
    if s != "" && s[0] == ' ' then s[1..] else s
  }

  datatype OneField = NoField | OneField(field: Field, behind: string)

  /** The name up to its closing quote, and what follows the colon. */
  function ReadName(t: string): OneField {
    if t == "" || t[0] != '"' then NoField else
      var n := UpTo(t[1..], "\"");
      var u := t[1..][n..];
      if |u| < 2 || u[1] != ':' then NoField else OneField(Field(t[1..][..n], ""), u[2..])
  }

  /** One field, and the comma or brace behind it with the rest. */
  function ReadOne(s: string): OneField {
    match ReadName(AfterSpace(s))
    case NoField => NoField
    case OneField(f, u) =>
      var v := UpTo(u, ",}");
      if v == |u| then NoField else OneField(Field(f.name, u[..v]), u[v..])
  }

  /** The fields of an object, after its opening brace or a comma, and the text behind the closing brace. */
  function ReadFields(s: string): Fields
    decreases |s|
  {
    match ReadOne(s)
    case NoField => Bad
    case OneField(field, w) =>
      if w == "" || |w| > |s| then Bad
      else if w[0] == '}' then Read([field], w[1..])
      else match ReadFields(w[1..])
        case Bad => Bad
        case Read(fields, rest) => Read([field] + fields, rest)
  }

  lemma {:induction false} UpToIs(s: string, t: string, stops: string)
    requires (forall i :: 0 <= i < |s| ==> s[i] !in stops) && t != "" && t[0] in stops
    ensures UpTo(s + t, stops) == |s|
  {
    if s == "" {
      assert s + t == t;
    } else {
      assert (s + t)[1..] == s[1..] + t;
      UpToIs(s[1..], t, stops);
    }
  }

  lemma Parts(a: string, b: string)
    ensures (a + b)[..|a|] == a && (a + b)[|a|..] == b
  {
  }

  lemma ReadNameIs(name: string, rest: string)
    requires '"' !in name
    ensures ReadName("\"" + (name + ("\":" + rest))) == OneField(Field(name, ""), rest)
  {
    var u := "\":" + rest;
    var t := "\"" + (name + u);
    Parts("\"", name + u);
    assert t[1..] == name + u;
    Parts(name, u);
    UpToIs(name, u, "\"");
    Parts("\":", rest);
  }

  lemma ReadOneIs(space: string, name: string, value: string, tail: string)
    requires space in ["", " "] && '"' !in name && PlainValue(value) && tail != "" && tail[0] in ",}"
    ensures ReadOne(space + ("\"" + (name + ("\":" + (value + tail))))) == OneField(Field(name, value), tail)
  {
    hide ReadName;
    var t := "\"" + (name + ("\":" + (value + tail)));
    assert AfterSpace(space + t) == t by { assert space == " " ==> (space + t)[1..] == t; assert space == "" ==> space + t == t; }
    ReadNameIs(name, value + tail);
    UpToIs(value, tail, ",}");
    Parts(value, tail);
  }

  /** One field, and what follows it. */
  lemma ReadField(space: string, name: string, value: string, tail: string)
    requires space in ["", " "] && '"' !in name && PlainValue(value) && tail != "" && tail[0] in ",}"
    ensures ReadFields(space + ("\"" + (name + ("\":" + (value + tail)))))
            == if tail[0] == '}' then Read([Field(name, value)], tail[1..])
               else match ReadFields(tail[1..])
                 case Bad => Bad
                 case Read(fields, rest) => Read([Field(name, value)] + fields, rest)
  {
    hide ReadOne;
    ReadOneIs(space, name, value, tail);
  }

  /** The value of the first field of a name. */
  function Lookup(fields: seq<Field>, name: string): Option<string> {
    if fields == [] then None
    else if fields[0].name == name then Some(fields[0].value)
    else Lookup(fields[1..], name)
  }

  function IntField(fields: seq<Field>, name: string): Option<int> {
    match Lookup(fields, name)
    case None => None
    case Some(text) => ReadInt(text)
  }

  // ---- Lists --------------------------------------------------------------------------------

  /** The objects of a list, after its opening bracket or a comma. */
  function ReadItems(s: string): Option<seq<seq<Field>>>
    decreases |s|
  {
    if s == "" || s[0] != '{' then None else
      match ReadFields(s[1..])
      case Bad => None
      case Read(fields, rest) =>
        if rest == " ]" then Some([fields])
        else if rest == "" || rest[0] != ',' || |rest| >= |s| then None
        else match ReadItems(rest[1..])
          case None => None
          case Some(more) => Some([fields] + more)
  }

  /** The objects of a list. */
  function ReadList(s: string): Option<seq<seq<Field>>> {
    if s == "[]" then Some([])
    else if s == "" || s[0] != '[' then None
    else ReadItems(s[1..])
  }

  /** The numbers of a list. */
  function ReadNumbers(s: string): Option<seq<int>> {
    if s == "[]" then Some([])
    else if s == "" || s[0] != '[' then None
    else ReadNumbersFrom(s[1..])
  }

  function ReadNumbersFrom(s: string): Option<seq<int>>
    decreases |s|
  {
    var n := UpTo(s, ", ");
    match ReadInt(s[..n])
    case None => None
    case Some(x) =>
      if s[n..] == " ]" then Some([x])
      else if n == |s| || s[n] != ',' then None
      else match ReadNumbersFrom(s[n + 1..])
        case None => None
        case Some(more) => Some([x] + more)
  }

  /** The item is an object with these fields, whatever follows it. */
  ghost predicate IsObject(item: string, fields: seq<Field>) {
    item != "" && item[0] == '{' && forall tail: string :: ReadFields(item[1..] + tail) == Read(fields, tail)
  }

  lemma JoinedThen(item: string, joined: string)
    ensures item + "," + joined + " ]" == item + ("," + (joined + " ]"))
    ensures ("," + (joined + " ]"))[1..] == joined + " ]"
  {
  }

  lemma JoinOne(items: seq<string>)
    requires |items| == 1
    ensures Join(items) == items[0]
  {
    assert "" + items[0] == items[0];
  }

  lemma {:induction false} JoinFront(items: seq<string>)
    requires |items| > 1
    ensures Join(items) == items[0] + "," + Join(items[1..])
  {
    var n := |items| - 1;
    assert items[1..][..n - 1] == items[..n][1..];
    if n > 1 {
      JoinFront(items[..n]);
      assert Join(items) == items[0] + "," + Join(items[..n][1..]) + "," + items[n];
    }
  }

  /** A list of objects is read back, item by item. */
  lemma {:induction false} ReadJoined(items: seq<string>, objects: seq<seq<Field>>)
    requires items != [] && |objects| == |items| && forall i :: 0 <= i < |items| ==> IsObject(items[i], objects[i])
    ensures ReadItems(Join(items) + " ]") == Some(objects)
  {
    hide ReadItems, IsObject, Join;
    var s := Join(items) + " ]";
    if |items| == 1 {
      JoinOne(items);
      assert s == items[0] + " ]";
      ObjectRead(items[0], objects[0], " ]");
      assert objects == [objects[0]];
    } else {
      JoinFront(items);
      var rest := Join(items[1..]) + " ]";
      JoinedThen(items[0], Join(items[1..]));
      ObjectRead(items[0], objects[0], "," + rest);
      ReadJoined(items[1..], objects[1..]);
      assert objects == [objects[0]] + objects[1..];
    }
  }

  lemma ObjectRead(item: string, fields: seq<Field>, tail: string)
    requires IsObject(item, fields) && (tail == " ]" || (tail != "" && tail[0] == ','))
    ensures ReadItems(item + tail)
            == if tail == " ]" then Some([fields])
               else match ReadItems(tail[1..])
                 case None => None
                 case Some(more) => Some([fields] + more)
  {
    hide ReadFields;
    assert (item + tail)[1..] == item[1..] + tail && (item + tail)[0] == item[0];
  }

  lemma {:induction false} ReadListText(items: seq<string>, objects: seq<seq<Field>>)
    requires |objects| == |items| && forall i :: 0 <= i < |items| ==> IsObject(items[i], objects[i])
    ensures ReadList(ListText(items)) == Some(objects)
  {
    hide ReadItems, IsObject, Join;
    if items != [] {
      ReadJoined(items, objects);
      var s := "[" + Join(items) + " ]";
      assert s[1..] == Join(items) + " ]";
    } else {
      assert objects == [];
    }
  }

  /** So is a list of numbers. */
  lemma {:induction false} ReadNumberTexts(ns: seq<int>, texts: seq<string>)
    requires |texts| == |ns| && forall i :: 0 <= i < |ns| ==> texts[i] == Dec(ns[i])
    ensures ReadNumbers(ListText(texts)) == Some(ns)
  {
    hide ReadNumbersFrom, Join, Dec;
    if ns != [] {
      ReadJoinedNumbers(ns, texts);
      var s := "[" + Join(texts) + " ]";
      assert s[1..] == Join(texts) + " ]";
    } else {
      assert ns == [];
    }
  }

  lemma {:induction false} ReadJoinedNumbers(ns: seq<int>, texts: seq<string>)
    requires ns != [] && |texts| == |ns| && forall i :: 0 <= i < |ns| ==> texts[i] == Dec(ns[i])
    ensures ReadNumbersFrom(Join(texts) + " ]") == Some(ns)
  {
    hide Dec, ReadInt, ReadNumbersFrom, Join;
    var s, t := Join(texts) + " ]", texts[0];
    if |ns| == 1 {
      JoinOne(texts);
      assert s == t + " ]";
      NumberRead(ns[0], " ]");
      assert ns == [ns[0]];
    } else {
      JoinFront(texts);
      var rest := Join(texts[1..]) + " ]";
      JoinedThen(t, Join(texts[1..]));
      NumberRead(ns[0], "," + rest);
      ReadJoinedNumbers(ns[1..], texts[1..]);
      assert ns == [ns[0]] + ns[1..];
    }
  }

  lemma NumberRead(n: int, tail: string)
    requires tail == " ]" || (tail != "" && tail[0] == ',')
    ensures ReadNumbersFrom(Dec(n) + tail)
            == if tail == " ]" then Some([n])
               else match ReadNumbersFrom(tail[1..])
                 case None => None
                 case Some(more) => Some([n] + more)
  {
    hide Dec, ReadInt;
    DecRoundTrip(n);
    UpToIs(Dec(n), tail, ", ");
    Parts(Dec(n), tail);
    assert tail[0] == ',' ==> (Dec(n) + tail)[|Dec(n)| + 1..] == tail[1..];
  }
}
