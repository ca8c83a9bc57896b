/** Text the SQL is written with: identifiers, decimal numbers, and the string builder. */
module Text {
  import opened Wrappers

  // ---- Quoted identifiers -----------------------------------------------------------------

  function DoubledChar(c: char): string {
    if c == '"' then ['"', '"'] else [c]
  }

  /** Every quote doubled. */
  function Doubled(name: string): string {
    if name == "" then ""
    else DoubledChar(name[0]) + Doubled(name[1..])
  }

  function QuoteIdent(name: string): string {
    ['"'] + Doubled(name) + ['"']
  }

  /** Reads up to the closing quote, as SQL does: a doubled quote stands for one. */
  function ReadQuoted(s: string): (r: Option<(string, string)>)
    ensures r.Some? ==> |r.value.1| < |s|
  {
    if s == "" then None
    else if s[0] != '"' then
      match ReadQuoted(s[1..])
      case None => None
      case Some((name, rest)) => Some(([s[0]] + name, rest))
    else if |s| > 1 && s[1] == '"' then
      match ReadQuoted(s[2..])
      case None => None
      case Some((name, rest)) => Some((['"'] + name, rest))
    else Some(("", s[1..]))
  }

  function ReadIdent(s: string): (r: Option<(string, string)>)
    ensures r.Some? ==> |r.value.1| < |s|
  {
    if s != "" && s[0] == '"' then ReadQuoted(s[1..]) else None
  }

  lemma DoubledSteps(name: string, end: string)
    requires name != ""
    ensures Doubled(name) + end == DoubledChar(name[0]) + (Doubled(name[1..]) + end)
  {
  }

  lemma CharReadsBack(c: char, rest: string)
    ensures ReadQuoted(DoubledChar(c) + rest)
         == match ReadQuoted(rest) case None => None case Some((name, end)) => Some(([c] + name, end))
  {
    var s := DoubledChar(c) + rest;
    assert s[|DoubledChar(c)|..] == rest;
  }

  lemma {:induction false} QuotedReadsBack(name: string, end: string)
    requires end != "" && end[0] == '"' && !(|end| > 1 && end[1] == '"')
    ensures ReadQuoted(Doubled(name) + end) == Some((name, end[1..]))
  {
    if name == "" {
      assert Doubled(name) + end == end;
    } else {
      QuotedReadsBack(name[1..], end);
      CharReadsBack(name[0], Doubled(name[1..]) + end);
      DoubledSteps(name, end);
      assert name == [name[0]] + name[1..];
    }
  }

  /** A quoted name reads back as the name, whatever characters it has, if no quote follows. */
  lemma IdentReadsBack(name: string, rest: string)
    requires rest == "" || rest[0] != '"'
    ensures ReadIdent(QuoteIdent(name) + rest) == Some((name, rest))
  {
    QuotedReadsBack(name, ['"'] + rest);
    assert (QuoteIdent(name) + rest)[1..] == Doubled(name) + (['"'] + rest);
  }

  // ---- Decimal numbers --------------------------------------------------------------------

  predicate IsDigit(c: char) { '0' <= c <= '9' }

  function Digit(d: nat): char
    requires d < 10
  {
    ('0' as int + d) as char
  }

  /** `%d` of a number. */
  function Decimal(n: nat): string {
    if n < 10 then [Digit(n)] else Decimal(n / 10) + [Digit(n % 10)]
  }

  function Placeholder(position: nat): string { "$" + Decimal(position) }

  function ReadDigits(s: string, value: nat): (nat, string) {
    if s != "" && IsDigit(s[0]) then ReadDigits(s[1..], 10 * value + (s[0] as int - '0' as int)) else (value, s)
  }

  function ReadPlaceholder(s: string): Option<(nat, string)> {
    if |s| > 1 && s[0] == '$' && IsDigit(s[1]) then Some(ReadDigits(s[1..], 0)) else None
  }

  lemma {:induction false} DigitsReadOn(n: nat, rest: string)
    ensures ReadDigits(Decimal(n) + rest, 0) == ReadDigits(rest, n)
  {
    if n < 10 {
      assert ([Digit(n)] + rest)[1..] == rest;
    } else {
      var last := [Digit(n % 10)];
      DigitsReadOn(n / 10, last + rest);
      assert Decimal(n) + rest == Decimal(n / 10) + (last + rest);
      assert (last + rest)[1..] == rest;
    }
  }

  lemma {:induction false} DecimalStartsWithDigit(n: nat)
    ensures Decimal(n) != "" && IsDigit(Decimal(n)[0])
  {
    if n >= 10 { DecimalStartsWithDigit(n / 10); }
  }

  lemma PlaceholderReadsBack(position: nat, rest: string)
    requires rest == "" || !IsDigit(rest[0])
    ensures ReadPlaceholder(Placeholder(position) + rest) == Some((position, rest))
  {
    DigitsReadOn(position, rest);
    DecimalStartsWithDigit(position);
    assert (Placeholder(position) + rest)[1..] == Decimal(position) + rest;
  }

  // ---- Separated lists --------------------------------------------------------------------

  function Map<A, B>(f: A -> B, items: seq<A>): (mapped: seq<B>)
    ensures |mapped| == |items|
    ensures forall i :: 0 <= i < |items| ==> mapped[i] == f(items[i])
  {
    seq(|items|, i requires 0 <= i < |items| => f(items[i]))
  }

  lemma MapOfConcat<A, B>(f: A -> B, a: seq<A>, b: seq<A>)
    ensures Map(f, a + b) == Map(f, a) + Map(f, b)
  {
  }

  lemma MapOfTake<A, B>(f: A -> B, items: seq<A>, n: nat)
    requires n <= |items|
    ensures Map(f, items[..n]) == Map(f, items)[..n]
  {
  }

  function Join(parts: seq<string>, separator: string): string {
    if parts == [] then ""
    else if |parts| == 1 then parts[0]
    else Join(parts[..|parts| - 1], separator) + separator + parts[|parts| - 1]
  }

  lemma Regroup(a: string, b: string, c: string, d: string)
    ensures (a + (b + c)) + d == a + (b + (c + d))
  {
  }

  lemma Associate(a: string, b: string, c: string, d: string)
    ensures a + b + c + d == a + (b + c + d)
  {
  }

  /** One more item of a list: a separator unless it is the first, and the item. */
  lemma JoinNext(parts: seq<string>, separator: string, i: nat)
    requires i < |parts|
    ensures Join(parts[..i + 1], separator)
         == Join(parts[..i], separator) + (if i > 0 then separator else "") + parts[i]
  {
    assert parts[..i + 1][..i] == parts[..i];
  }

  lemma {:induction false} JoinFromTheFront(parts: seq<string>, separator: string)
    requires |parts| > 1
    ensures Join(parts, separator) == parts[0] + (separator + Join(parts[1..], separator))
  {
    var n := |parts| - 1;
    if n > 1 {
      var middle := Join(parts[1..n], separator);
      assert Join(parts[..n], separator) == parts[0] + (separator + middle) by {
        JoinFromTheFront(parts[..n], separator);
        assert parts[..n][1..] == parts[1..n];
      }
      assert Join(parts[1..], separator) == middle + separator + parts[n] by {
        assert parts[1..][..n - 1] == parts[1..n];
      }
      Associate(parts[0] + (separator + middle), "", separator, parts[n]);
      Regroup(parts[0], separator, middle, separator + parts[n]);
    } else {
      assert parts[..n] == [parts[0]] && parts[1..] == [parts[n]];
      assert parts[0] + separator + parts[n] == parts[0] + (separator + parts[n]);
    }
  }

  /** Every part followed by `end`. */
  function Terminated(parts: seq<string>, end: string): string {
    if parts == [] then "" else Terminated(parts[..|parts| - 1], end) + (parts[|parts| - 1] + end)
  }

  lemma {:induction false} TerminatedFromTheFront(parts: seq<string>, end: string)
    requires parts != []
    ensures Terminated(parts, end) == parts[0] + (end + Terminated(parts[1..], end))
  {
    var n := |parts| - 1;
    if n == 0 {
      assert parts[..0] == [] && parts[1..] == [];
    } else {
      TerminatedFromTheFront(parts[..n], end);
      assert parts[..n][1..] == parts[1..][..n - 1];
      Regroup(parts[0], end, Terminated(parts[1..][..n - 1], end), parts[n] + end);
    }
  }

  lemma CharAfter(a: string, b: string, k: nat)
    requires k < |b|
    ensures (a + b)[|a| + k] == b[k]
  {
  }

  /** Text that begins with `lead`, and what follows it. */
  lemma Dropped(lead: string, rest: string)
    ensures lead <= lead + rest && (lead + rest)[|lead|..] == rest
  {
  }

  /** Reads items as far as separators go on. */
  function ReadList<T>(read: string -> Option<(T, string)>, separator: string, s: string): Option<(seq<T>, string)>
    requires separator != ""
    decreases |s|
  {
    match read(s)
    case None => None
    case Some((item, rest)) =>
      if separator <= rest && |rest| <= |s| then
        match ReadList(read, separator, rest[|separator|..])
        case None => None
        case Some((items, end)) => Some(([item] + items, end))
      else Some(([item], rest))
  }

  lemma OneMoreItem<T>(read: string -> Option<(T, string)>, separator: string, text: string, item: T,
                       tail: string, items: seq<T>, end: string)
    requires separator != ""
    requires read(text + (separator + tail)) == Some((item, separator + tail))
    requires ReadList(read, separator, tail) == Some((items, end))
    ensures ReadList(read, separator, text + (separator + tail)) == Some(([item] + items, end))
  {
    Dropped(separator, tail);
  }

  /** If every item reads back wherever a list can go on or end, so does the list. */
  lemma {:induction false} ListReadsBack<T>(read: string -> Option<(T, string)>, separator: string,
                                            texts: seq<string>, items: seq<T>, rest: string)
    requires separator != "" && |texts| == |items| > 0
    requires forall i, t: string :: 0 <= i < |texts| && (separator <= t || t == rest) ==>
             read(texts[i] + t) == Some((items[i], t))
    requires !(separator <= rest)
    ensures ReadList(read, separator, Join(texts, separator) + rest) == Some((items, rest))
  {
    if |texts| == 1 {
      assert items == [items[0]];
      assert read(texts[0] + rest) == Some((items[0], rest));
    } else {
      var tail := Join(texts[1..], separator) + rest;
      assert ReadList(read, separator, tail) == Some((items[1..], rest)) by {
        ListReadsBack(read, separator, texts[1..], items[1..], rest);
      }
      assert Join(texts, separator) + rest == texts[0] + (separator + tail) by {
        JoinFromTheFront(texts, separator);
        Regroup(texts[0], separator, Join(texts[1..], separator), rest);
      }
      Dropped(separator, tail);
      OneMoreItem(read, separator, texts[0], items[0], tail, items[1..], rest);
      assert items == [items[0]] + items[1..];
    }
  }

  // ---- The string builder -----------------------------------------------------------------

  /** strings.Builder. `growths` counts the times its buffer was allocated anew. */
  class Builder {
    var text: string
    var capacity: nat
    var growths: nat

    ghost predicate Valid()
      reads this
    {
      |text| <= capacity
    }

    constructor ()
      ensures Valid() && text == "" && capacity == 0 && growths == 0
    {
      text, capacity, growths := "", 0, 0;
    }

    /** Makes room for n more characters; if they do not fit, in a new buffer of twice the room and
        n more. */
    method Grow(n: nat)
      requires Valid()
      modifies this
      ensures Valid() && text == old(text)
      ensures if old(capacity) - |old(text)| < n
              then capacity == 2 * old(capacity) + n && growths == old(growths) + 1
              else capacity == old(capacity) && growths == old(growths)
    {
      if capacity - |text| < n {
        capacity := 2 * capacity + n;
        growths := growths + 1;
      }
    }

    method WriteString(s: string)
      requires Valid()
      modifies this
      ensures Valid() && text == old(text) + s
      ensures |old(text)| + |s| <= old(capacity) ==> capacity == old(capacity) && growths == old(growths)
      ensures |old(text)| + |s| > old(capacity) ==> growths == old(growths) + 1
    {
      if |text| + |s| > capacity {
        capacity := 2 * (|text| + |s|);
        growths := growths + 1;
      }
      text := text + s;
    }
  }

  /** Writes item i of a list. */
  method WriteNext(b: Builder, i: nat, item: string, ghost lead: string, ghost parts: seq<string>)
    requires b.Valid() && i < |parts| && item == parts[i]
    requires b.text == lead + Join(parts[..i], ", ")
    modifies b
    ensures b.Valid() && b.text == lead + Join(parts[..i + 1], ", ")
  {
    JoinNext(parts, ", ", i);
    Associate(lead, Join(parts[..i], ", "), if i > 0 then ", " else "", parts[i]);
    if i > 0 {
      b.WriteString(", ");
    }
    b.WriteString(item);
  }
}
