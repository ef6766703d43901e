/** JSON values, the text the generator writes for them, and a strict reader that gives the
    values back. */
module JsonText {
  import opened Words

  /** Where a value stands: outside any container, in an array or in an object. */
  datatype Kind = Top | InArray | InObject

  datatype Json =
    | Null
    | Bool(b: bool)
    | Number(n: int)
    | Str(s: string)
    | Node(kind: Kind, items: seq<Item>)

  /** An array element, with an empty key, or an object member. */
  datatype Item = Item(key: string, value: Json)

  ghost predicate Proper(j: Json)
    decreases j
  {
    j.Node? ==> j.kind != Top && ProperItems(j.kind, j.items)
  }

  ghost predicate ProperItems(kind: Kind, items: seq<Item>)
    decreases items
  {
    forall k :: 0 <= k < |items| ==> Proper(items[k].value) && (kind != InObject ==> items[k].key == "")
  }

  // Text

  predicate Escapes(c: char) { c < ' ' || c == 127 as char || c == '"' || c == '\\' }

  function Hex(n: nat): char
    requires n < 16
  {
    if n < 10 then Digit(n) else ('a' as int + (n - 10)) as char
  }

  function EscapedChar(c: char): string {
    if Escapes(c) then ['\\', 'u', '0', '0', Hex(c as int / 16), Hex(c as int % 16)] else [c]
  }

  function Escaped(s: string): string {
    if s == [] then [] else EscapedChar(s[0]) + Escaped(s[1..])
  }

  function Quoted(s: string): string { ['"'] + Escaped(s) + ['"'] }

  function Digit(n: nat): char
    requires n < 10
  {
    ('0' as int + n) as char
  }

  function Digits(n: nat): (s: string)
    ensures s != []
  {
    if n < 10 then [Digit(n)] else Digits(n / 10) + [Digit(n % 10)]
  }

  function Opening(kind: Kind): string { match kind case Top => "" case InArray => "[" case InObject => "{" }
  function Closing(kind: Kind): string { match kind case Top => "" case InArray => "]" case InObject => "}" }

  /** The comma and key that come before a value. */
  function Lead(kind: Kind, first: bool, key: string): string {
    (if kind == Top || first then "" else ",") + (if kind == InObject then Quoted(key) + ":" else "")
  }

  function Text(j: Json): string
    decreases j
  {
    match j
    case Null => "null"
    case Bool(b) => if b then "true" else "false"
    case Number(n) => if n < 0 then "-" + Digits(-n) else Digits(n)
    case Str(s) => Quoted(s)
    case Node(kind, items) => Opening(kind) + ItemsText(kind, items) + Closing(kind)
  }

  function ItemsText(kind: Kind, items: seq<Item>): string
    decreases items
  {
    if items == [] then ""
    else
      var last := items[|items| - 1];
      ItemsText(kind, items[..|items| - 1]) + Lead(kind, |items| == 1, last.key) + Text(last.value)
  }

  // The reader

  function DigitValue(c: char): Option<nat> {
    if '0' <= c <= '9' then Some(c as int - '0' as int) else None
  }

  function HexValue(c: char): Option<nat> {
    if '0' <= c <= '9' then Some(c as int - '0' as int)
    else if 'a' <= c <= 'f' then Some(10 + c as int - 'a' as int)
    else None
  }

  predicate StartsDigit(s: string) { s != [] && DigitValue(s[0]).Some? }

  /** The digits at the start of s, after those worth acc. */
  function ReadDigits(s: string, acc: nat): (r: (nat, string))
    ensures |r.1| <= |s| && (StartsDigit(s) ==> |r.1| < |s|)
  {
    if !StartsDigit(s) then (acc, s) else ReadDigits(s[1..], 10 * acc + DigitValue(s[0]).value)
  }

  /** A number has no leading zero. */
  function ReadNumber(s: string, sign: int): (r: Option<(Json, string)>)
    ensures r.Some? ==> |r.value.1| < |s|
  {
    if !StartsDigit(s) || (s[0] == '0' && StartsDigit(s[1..])) then None
    else var r := ReadDigits(s, 0); Some((Number(sign * r.0), r.1))
  }

  /** A string up to its closing quote. */
  function ReadString(s: string): (r: Option<(string, string)>)
    ensures r.Some? ==> |r.value.1| < |s|
  {
    if s == [] then None
    else if s[0] == '"' then Some(("", s[1..]))
    else if s[0] == '\\' then
      if |s| < 6 || s[1..4] != "u00" || HexValue(s[4]).None? || HexValue(s[5]).None? then None
      else
        match ReadString(s[6..])
        case None => None
        case Some((t, rest)) => Some(([(16 * HexValue(s[4]).value + HexValue(s[5]).value) as char] + t, rest))
    else if Escapes(s[0]) then None
    else match ReadString(s[1..]) case None => None case Some((t, rest)) => Some(([s[0]] + t, rest))
  }

  predicate StartsWith(s: string, word: string) { |word| <= |s| && s[..|word|] == word }

  function ReadWord(s: string, word: string, j: Json): Option<(Json, string)> {
    if StartsWith(s, word) then Some((j, s[|word|..])) else None
  }

  function ReadValue(s: string): (r: Option<(Json, string)>)
    ensures r.Some? ==> |r.value.1| < |s|
    decreases |s|, 0
  {
    if s == [] then None
    else if s[0] == 'n' then ReadWord(s, "null", Null)
    else if s[0] == 't' then ReadWord(s, "true", Bool(true))
    else if s[0] == 'f' then ReadWord(s, "false", Bool(false))
    else if s[0] == '"' then
      match ReadString(s[1..]) case None => None case Some((t, rest)) => Some((Str(t), rest))
    else if s[0] == '[' then ReadNode(InArray, s[1..])
    else if s[0] == '{' then ReadNode(InObject, s[1..])
    else if s[0] == '-' then ReadNumber(s[1..], -1)
    else ReadNumber(s, 1)
  }

  /** A container after its opening bracket. */
  function ReadNode(kind: Kind, s: string): (r: Option<(Json, string)>)
    requires kind != Top
    ensures r.Some? ==> |r.value.1| < |s|
    decreases |s|, 2
  {
    if StartsWith(s, Closing(kind)) then Some((Node(kind, []), s[1..]))
    else match ReadItems(kind, s) case None => None case Some((items, rest)) => Some((Node(kind, items), rest))
  }

  /** One or more items and the closing bracket. */
  function ReadItems(kind: Kind, s: string): (r: Option<(seq<Item>, string)>)
    requires kind != Top
    ensures r.Some? ==> |r.value.1| < |s|
    decreases |s|, 1
  {
    match ReadKey(kind, s)
    case None => None
    case Some((key, s1)) =>
      match ReadValue(s1)
      case None => None
      case Some((value, s2)) =>
        if StartsWith(s2, Closing(kind)) then Some(([Item(key, value)], s2[1..]))
        else if StartsWith(s2, ",") then
          match ReadItems(kind, s2[1..])
          case None => None
          case Some((items, rest)) => Some(([Item(key, value)] + items, rest))
        else None
  }

  function ReadKey(kind: Kind, s: string): (r: Option<(string, string)>)
    ensures r.Some? ==> |r.value.1| <= |s|
  {
    if kind != InObject then Some(("", s))
    else if !StartsWith(s, "\"") then None
    else
      match ReadString(s[1..])
      case None => None
      case Some((key, rest)) => if StartsWith(rest, ":") then Some((key, rest[1..])) else None
  }

  // Reading back what is written

  lemma {:induction false} EscapedAppend(a: string, b: string)
    ensures Escaped(a + b) == Escaped(a) + Escaped(b)
  {
    if a == [] {
      assert a + b == b;
    } else {
      assert (a + b)[1..] == a[1..] + b;
      EscapedAppend(a[1..], b);
    }
  }

  /** A quoted string comes back as it was, escapes and all. */
  lemma {:induction false} StringBack(s: string, rest: string)
    ensures ReadString(Escaped(s) + "\"" + rest) == Some((s, rest))
  {
    var t := Escaped(s) + "\"" + rest;
    if s != [] {
      StringBack(s[1..], rest);
      var tail := Escaped(s[1..]) + "\"" + rest;
      assert t == EscapedChar(s[0]) + tail;
      if Escapes(s[0]) {
        assert t[6..] == tail && t[1..4] == "u00";
        HexBack(s[0]);
      } else {
        assert t[1..] == tail;
      }
      assert [s[0]] + s[1..] == s;
    }
  }

  lemma HexBack(c: char)
    requires Escapes(c)
    ensures var h, l := HexValue(Hex(c as int / 16)), HexValue(Hex(c as int % 16));
            h.Some? && l.Some? && 16 * h.value + l.value == c as int
  {
  }

  lemma {:induction false} DigitsBack(n: nat, rest: string)
    ensures ReadDigits(Digits(n) + rest, 0) == ReadDigits(rest, n)
  {
    if n >= 10 {
      assert Digits(n) + rest == Digits(n / 10) + ([Digit(n % 10)] + rest);
      DigitsBack(n / 10, [Digit(n % 10)] + rest);
    }
  }

  lemma {:induction false} DigitsStart(n: nat)
    ensures StartsDigit(Digits(n))
  {
    if n >= 10 {
      DigitsStart(n / 10);
    }
  }

  /** The items written left to right. */
  function ItemText(kind: Kind, item: Item): string { Lead(kind, true, item.key) + Text(item.value) }

  function ListText(kind: Kind, items: seq<Item>): string {
    if items == [] then "" else "," + ItemText(kind, items[0]) + ListText(kind, items[1..])
  }

  lemma {:induction false} ListTextLast(kind: Kind, items: seq<Item>, item: Item)
    ensures ListText(kind, items + [item]) == ListText(kind, items) + "," + ItemText(kind, item)
  {
    if items == [] {
      assert items + [item] == [item];
    } else {
      assert (items + [item])[1..] == items[1..] + [item];
      ListTextLast(kind, items[1..], item);
    }
  }

  lemma RegroupLast(a: string, l: string, key: string, t: string)
    ensures (a + l) + ("," + key) + t == a + (l + "," + (key + t))
  {
  }

  lemma {:induction false} ItemsTextIsList(kind: Kind, items: seq<Item>)
    requires items != [] && kind != Top
    ensures ItemsText(kind, items) == ItemText(kind, items[0]) + ListText(kind, items[1..])
  {
    var init, last := items[..|items| - 1], items[|items| - 1];
    if |items| > 1 {
      ItemsTextIsList(kind, init);
      assert items[1..] == init[1..] + [last];
      ListTextLast(kind, init[1..], last);
      LeadComma(kind, last.key);
      RegroupLast(ItemText(kind, items[0]), ListText(kind, init[1..]), Lead(kind, true, last.key), Text(last.value));
    }
  }

  lemma LeadComma(kind: Kind, key: string)
    requires kind != Top
    ensures Lead(kind, false, key) == "," + Lead(kind, true, key)
  {
  }

  lemma KeyBack(kind: Kind, key: string, rest: string)
    requires kind != InObject ==> key == ""
    ensures ReadKey(kind, Lead(kind, true, key) + rest) == Some((key, rest))
  {
    if kind == InObject {
      var s := Lead(kind, true, key) + rest;
      StringBack(key, ":" + rest);
      assert s == ['"'] + (Escaped(key) + "\"" + (":" + rest));
      assert s[1..] == Escaped(key) + "\"" + (":" + rest);
      assert (":" + rest)[1..] == rest;
    } else {
      assert Lead(kind, true, key) + rest == rest;
    }
  }

  /** The text of any value, followed by anything that does not prolong a number, is read as
      that value and leaves what follows. */
  lemma {:induction false} ValueBack(j: Json, rest: string)
    requires Proper(j) && !StartsDigit(rest)
    ensures ReadValue(Text(j) + rest) == Some((j, rest))
    decreases j
  {
    match j
    case Null => WordBack(j, rest);
    case Bool(b) => WordBack(j, rest);
    case Number(n) => NumberBack(n, rest);
    case Str(t) => StrBack(t, rest);
    case Node(kind, items) =>
      NodeBack(kind, items, rest);
      ContainerBack(kind, items, rest);
  }

  lemma StrBack(t: string, rest: string)
    ensures ReadValue(Text(Str(t)) + rest) == Some((Str(t), rest))
  {
    StringBack(t, rest);
    Associative("\"", Escaped(t), "\"");
    Regroup("\"", Escaped(t) + "\"", rest);
  }

  lemma ContainerBack(kind: Kind, items: seq<Item>, rest: string)
    requires kind != Top
    ensures ReadValue(Text(Node(kind, items)) + rest) == ReadNode(kind, ItemsText(kind, items) + (Closing(kind) + rest))
  {
    Associative(Opening(kind), ItemsText(kind, items), Closing(kind));
    Regroup(Opening(kind), ItemsText(kind, items) + Closing(kind), rest);
    Associative(ItemsText(kind, items), Closing(kind), rest);
  }

  /** The first character and what follows it. */
  lemma Regroup(c: string, a: string, rest: string)
    requires |c| == 1
    ensures ((c + a) + rest)[0] == c[0] && ((c + a) + rest)[1..] == a + rest
  {
  }

  lemma WordBack(j: Json, rest: string)
    requires j.Null? || j.Bool?
    ensures ReadValue(Text(j) + rest) == Some((j, rest))
  {
    var word := Text(j);
    assert (word + rest)[..|word|] == word && (word + rest)[|word|..] == rest;
  }

  lemma ReadNumberBack(m: nat, sign: int, rest: string)
    requires !StartsDigit(rest)
    ensures StartsDigit(Digits(m) + rest) && ReadNumber(Digits(m) + rest, sign) == Some((Number(sign * m), rest))
  {
    DigitsStart(m);
    DigitsBack(m, rest);
    NoLeadingZero(m);
    var s := Digits(m) + rest;
    if m < 10 {
      assert s[1..] == rest;
    }
  }

  lemma {:induction false} NoLeadingZero(n: nat)
    ensures Digits(n)[0] == '0' <==> n == 0
  {
    if n >= 10 {
      NoLeadingZero(n / 10);
    }
  }

  lemma NumberBack(n: int, rest: string)
    requires !StartsDigit(rest)
    ensures ReadValue(Text(Number(n)) + rest) == Some((Number(n), rest))
  {
    if n < 0 {
      ReadNumberBack(-n, -1, rest);
      Regroup("-", Digits(-n), rest);
    } else {
      ReadNumberBack(n, 1, rest);
    }
  }

  lemma {:induction false} NodeBack(kind: Kind, items: seq<Item>, rest: string)
    requires kind != Top && ProperItems(kind, items)
    ensures ReadNode(kind, ItemsText(kind, items) + (Closing(kind) + rest)) == Some((Node(kind, items), rest))
    decreases items, 1
  {
    if items == [] {
      assert ItemsText(kind, items) + (Closing(kind) + rest) == Closing(kind) + rest;
      assert (Closing(kind) + rest)[1..] == rest;
    } else {
      ItemsTextIsList(kind, items);
      ItemStart(kind, items[0]);
      ItemsBack(kind, items, rest);
      Associative(ItemText(kind, items[0]), ListText(kind, items[1..]), Closing(kind) + rest);
    }
  }

  /** No item starts with the bracket that would close its container. */
  lemma ItemStart(kind: Kind, item: Item)
    requires kind != Top && Proper(item.value)
    ensures ItemText(kind, item) != [] && ItemText(kind, item)[0] != Closing(kind)[0]
  {
    TextStart(item.value);
    if kind == InArray {
      assert ItemText(kind, item) == Text(item.value);
    }
  }

  lemma TextStart(j: Json)
    requires Proper(j)
    ensures Text(j) != [] && Text(j)[0] != ']'
  {
    if j.Number? {
      DigitsStart(if j.n < 0 then -j.n else j.n);
    }
  }

  lemma ReadItemsStep(kind: Kind, s: string, key: string, s1: string, value: Json, s2: string)
    requires kind != Top && ReadKey(kind, s) == Some((key, s1)) && ReadValue(s1) == Some((value, s2)) && s2 != []
    ensures s2[0] == Closing(kind)[0] ==> ReadItems(kind, s) == Some(([Item(key, value)], s2[1..]))
    ensures s2[0] == ',' && ReadItems(kind, s2[1..]).Some? ==>
              var r := ReadItems(kind, s2[1..]).value; ReadItems(kind, s) == Some(([Item(key, value)] + r.0, r.1))
  {
    assert s2[..1] == [s2[0]];
  }

  lemma {:induction false} ItemsBack(kind: Kind, items: seq<Item>, rest: string)
    requires kind != Top && items != [] && ProperItems(kind, items)
    ensures ReadItems(kind, ItemText(kind, items[0]) + (ListText(kind, items[1..]) + (Closing(kind) + rest)))
            == Some((items, rest))
    decreases items, 0
  {
    var item, after := items[0], ListText(kind, items[1..]) + (Closing(kind) + rest);
    var lead, text := Lead(kind, true, item.key), Text(item.value);
    Associative(lead, text, after);
    KeyBack(kind, item.key, text + after);
    AfterItem(kind, items, rest);
    ValueBack(item.value, after);
    ReadItemsStep(kind, lead + text + after, item.key, text + after, item.value, after);
    if |items| > 1 {
      ItemsBack(kind, items[1..], rest);
      assert items == [item] + items[1..];
    } else {
      assert items == [item];
    }
  }

  /** What follows the first item: a comma and the next items, or the closing bracket. */
  lemma AfterItem(kind: Kind, items: seq<Item>, rest: string)
    requires kind != Top && items != []
    ensures var after := ListText(kind, items[1..]) + (Closing(kind) + rest);
            && after != [] && !StartsDigit(after)
            && if |items| == 1 then after[0] == Closing(kind)[0] && after[1..] == rest
               else after[0] == ',' &&
                    after[1..] ==
                    ItemText(kind, items[1..][0]) + (ListText(kind, items[1..][1..]) + (Closing(kind) + rest))
  {
    var end := Closing(kind) + rest;
    if |items| == 1 {
      assert ListText(kind, items[1..]) + end == end;
    } else {
      var i, l := ItemText(kind, items[1..][0]), ListText(kind, items[1..][1..]);
      Associative(",", i, l);
      Regroup(",", i + l, end);
      Associative(i, l, end);
    }
  }
}
