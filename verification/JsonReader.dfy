/**
 * Canonical text read back: an independent reader of compact JSON (RFC 8259 without white space)
 * that keeps the order in which the fields of an object stand.
 */
module JsonReader {
  import opened Prelude
  import opened Decimal
  import opened CanonicalJson

  datatype Doc =
    | NullDoc
    | BoolDoc(bit: bool)
    | NumberDoc(number: int)
    | TextDoc(chars: string)
    | ArrayDoc(docs: seq<Doc>)
    | ObjectDoc(members: seq<Member>)

  datatype Member = Member(key: string, doc: Doc)

  /** What was read, and what follows it. */
  datatype Read<T> = Read(value: T, rest: string)

  // ----- the reader -----

  function HexValue(c: char): Option<nat> {
    if '0' <= c <= '9' then Some(c as nat - 48)
    else if 'a' <= c <= 'f' then Some(c as nat - 87)
    else if 'A' <= c <= 'F' then Some(c as nat - 55)
    else None
  }

  /** The character of four hexadecimal digits. */
  function ReadCode(text: string): Option<Read<char>> {
    if |text| < 4 then None
    else
      match (HexValue(text[0]), HexValue(text[1]), HexValue(text[2]), HexValue(text[3]))
      case (Some(a), Some(b), Some(c), Some(d)) =>
        var code := 4096 * a + 256 * b + 16 * c + d;
        if code < 0xD800 then Some(Read(code as char, text[4..])) else None
      case _ => None
  }

  /** The character an escape stands for, after its backslash. */
  function ReadEscape(text: string): (r: Option<Read<char>>)
    ensures r.Some? ==> |r.value.rest| < |text|
  {
    if text == [] then None
    else
      match text[0]
      case '\"' => Some(Read('\"', text[1..]))
      case '\\' => Some(Read('\\', text[1..]))
      case '/' => Some(Read('/', text[1..]))
      case 'b' => Some(Read('\U{8}', text[1..]))
      case 'f' => Some(Read('\U{C}', text[1..]))
      case 'n' => Some(Read('\U{A}', text[1..]))
      case 'r' => Some(Read('\U{D}', text[1..]))
      case 't' => Some(Read('\U{9}', text[1..]))
      case 'u' => ReadCode(text[1..])
      case _ => None
  }

  /** The characters up to the closing quote. */
  function ReadChars(text: string): (r: Option<Read<string>>)
    ensures r.Some? ==> |r.value.rest| < |text|
    decreases |text|
  {
    if text == [] || text[0] < ' ' then None
    else if text[0] == '\"' then Some(Read([], text[1..]))
    else if text[0] == '\\' then
      match ReadEscape(text[1..])
      case None => None
      case Some(Read(c, rest)) => Preceded(c, ReadChars(rest))
    else Preceded(text[0], ReadChars(text[1..]))
  }

  function Preceded(c: char, r: Option<Read<string>>): Option<Read<string>> {
    if r.None? then None else Some(Read([c] + r.value.value, r.value.rest))
  }

  /** The digits in front, read from the left. */
  function ReadDigits(text: string, sofar: nat): Read<nat> {
    if text == [] || !('0' <= text[0] <= '9') then Read(sofar, text)
    else ReadDigits(text[1..], 10 * sofar + (text[0] as nat - 48))
  }

  lemma {:induction false} DigitsShorten(text: string, sofar: nat)
    ensures |ReadDigits(text, sofar).rest| <= |text|
  {
    if text != [] && '0' <= text[0] <= '9' {
      DigitsShorten(text[1..], 10 * sofar + (text[0] as nat - 48));
    }
  }

  /** A number without superfluous zeros. */
  function ReadNatural(text: string): (r: Option<Read<nat>>)
    ensures r.Some? ==> |r.value.rest| < |text|
  {
    if text == [] || !('0' <= text[0] <= '9') || (|text| > 1 && text[0] == '0' && '0' <= text[1] <= '9') then None
    else
      DigitsShorten(text[1..], text[0] as nat - 48);
      Some(ReadDigits(text[1..], text[0] as nat - 48))
  }

  function Signed(negative: bool, n: nat): int {
    if negative then 0 - n else n
  }

  function ReadInteger(text: string): (r: Option<Read<int>>)
    ensures r.Some? ==> |r.value.rest| < |text|
  {
    var negative := text != [] && text[0] == '-';
    match ReadNatural(if negative then text[1..] else text)
    case None => None
    case Some(Read(n, rest)) => Some(Read(Signed(negative, n), rest))
  }

  function ReadWord(text: string, word: string, doc: Doc): Option<Read<Doc>> {
    if word <= text then Some(Read(doc, text[|word|..])) else None
  }

  function ReadDoc(text: string): (r: Option<Read<Doc>>)
    ensures r.Some? ==> |r.value.rest| < |text|
    decreases |text|, 0
  {
    if text == [] then None
    else
      match text[0]
      case 'n' => ReadWord(text, "null", NullDoc)
      case 't' => ReadWord(text, "true", BoolDoc(true))
      case 'f' => ReadWord(text, "false", BoolDoc(false))
      case '\"' =>
        (match ReadChars(text[1..])
         case None => None
         case Some(Read(chars, rest)) => Some(Read(TextDoc(chars), rest)))
      case '[' =>
        if "]" <= text[1..] then Some(Read(ArrayDoc([]), text[2..]))
        else
          (match ReadItems(text[1..])
           case None => None
           case Some(Read(docs, rest)) => Some(Read(ArrayDoc(docs), rest)))
      case '{' =>
        if "}" <= text[1..] then Some(Read(ObjectDoc([]), text[2..]))
        else
          (match ReadMembers(text[1..])
           case None => None
           case Some(Read(members, rest)) => Some(Read(ObjectDoc(members), rest)))
      case _ =>
        (match ReadInteger(text)
         case None => None
         case Some(Read(n, rest)) => Some(Read(NumberDoc(n), rest)))
  }

  /** One item or more, with commas between them, and the closing bracket. */
  function ReadItems(text: string): (r: Option<Read<seq<Doc>>>)
    ensures r.Some? ==> |r.value.rest| < |text|
    decreases |text|, 1
  {
    match ReadDoc(text)
    case None => None
    case Some(Read(doc, rest)) =>
      if "]" <= rest then Some(Read([doc], rest[1..]))
      else if "," <= rest then
        (match ReadItems(rest[1..])
         case None => None
         case Some(Read(docs, rest')) => Some(Read([doc] + docs, rest')))
      else None
  }

  function ReadMember(text: string): (r: Option<Read<Member>>)
    ensures r.Some? ==> |r.value.rest| < |text|
    decreases |text|, 1
  {
    if !("\"" <= text) then None
    else
      match ReadChars(text[1..])
      case None => None
      case Some(Read(key, rest)) =>
        if !(":" <= rest) then None
        else
          match ReadDoc(rest[1..])
          case None => None
          case Some(Read(doc, rest')) => Some(Read(Member(key, doc), rest'))
  }

  function ReadMembers(text: string): (r: Option<Read<seq<Member>>>)
    ensures r.Some? ==> |r.value.rest| < |text|
    decreases |text|, 2
  {
    match ReadMember(text)
    case None => None
    case Some(Read(member, rest)) =>
      if "}" <= rest then Some(Read([member], rest[1..]))
      else if "," <= rest then
        (match ReadMembers(rest[1..])
         case None => None
         case Some(Read(members, rest')) => Some(Read([member] + members, rest')))
      else None
  }

  // ----- what a document says -----

  /** The document is the value, with the keys of every object in ascending order. */
  ghost predicate Spells(doc: Doc, v: Value)
    decreases doc
  {
    match doc
    case NullDoc => v.Null?
    case BoolDoc(bit) => v == Bool(bit)
    case NumberDoc(n) => v == Number(n)
    case TextDoc(chars) => v == Text(chars)
    case ArrayDoc(docs) => v.Array? && |docs| == |v.items| && forall i :: 0 <= i < |docs| ==> Spells(docs[i], v.items[i])
    case ObjectDoc(members) =>
      && v.Object?
      && (forall k :: k in v.fields <==> exists i :: 0 <= i < |members| && members[i].key == k)
      && (forall i, j :: 0 <= i < j < |members| ==> Precedes(members[i].key, members[j].key))
      && (forall i :: 0 <= i < |members| ==> members[i].key in v.fields && Spells(members[i].doc, v.fields[members[i].key]))
  }

  // ----- strings -----

  lemma Regroup<T>(a: seq<T>, b: seq<T>, c: seq<T>)
    ensures (a + b) + c == a + (b + c)
  {
  }

  lemma HexRead(d: nat)
    requires d < 16
    ensures HexValue(Hex(d)) == Some(d)
  {
  }

  lemma CodeRead(c: char, more: string)
    requires c < ' '
    ensures ReadCode("00" + [Hex(c as nat / 16), Hex(c as nat % 16)] + more) == Some(Read(c, more))
  {
    var text := "00" + [Hex(c as nat / 16), Hex(c as nat % 16)] + more;
    HexRead(c as nat / 16);
    HexRead(c as nat % 16);
    assert text[0] == '0' && text[1] == '0' && text[2] == Hex(c as nat / 16) && text[3] == Hex(c as nat % 16);
    assert text[4..] == more;
  }

  predicate Short(c: char) {
    c in {'\"', '\\', '\U{8}', '\U{9}', '\U{A}', '\U{C}', '\U{D}'}
  }

  /** Two characters for the seven named escapes, six for the other controls, and every other character for itself. */
  lemma EscapeLengths(c: char)
    ensures |Escaped(c)| == if Short(c) then 2 else if c < ' ' then 6 else 1
  {
  }

  lemma ShortRead(c: char, more: string)
    requires Short(c)
    ensures Escaped(c)[0] == '\\' && ReadEscape(Escaped(c)[1..] + more) == Some(Read(c, more))
  {
    var text := Escaped(c)[1..] + more;
    assert text[0] == Escaped(c)[1] && text[1..] == more;
  }

  lemma LongForm(c: char)
    requires !Short(c) && c < ' '
    ensures Escaped(c) == ['\\', 'u'] + ("00" + [Hex(c as nat / 16), Hex(c as nat % 16)])
  {
  }

  lemma CodeEscape(code: string, more: string)
    ensures ReadEscape((['\\', 'u'] + code)[1..] + more) == ReadCode(code + more)
  {
    var text := (['\\', 'u'] + code)[1..] + more;
    assert text[0] == 'u' && text[1..] == code + more;
  }

  lemma LongRead(c: char, more: string)
    requires !Short(c) && c < ' '
    ensures Escaped(c)[0] == '\\' && ReadEscape(Escaped(c)[1..] + more) == Some(Read(c, more))
  {
    LongForm(c);
    CodeEscape("00" + [Hex(c as nat / 16), Hex(c as nat % 16)], more);
    CodeRead(c, more);
  }

  lemma EscapedRead(c: char, more: string)
    ensures ReadChars(Escaped(c) + more) == Preceded(c, ReadChars(more))
  {
    var text := Escaped(c) + more;
    EscapeLengths(c);
    assert text[0] == Escaped(c)[0] && text[1..] == Escaped(c)[1..] + more;
    if Short(c) {
      ShortRead(c, more);
    } else if c < ' ' {
      LongRead(c, more);
    }
  }

  /** A quoted string is read back, whatever follows it. */
  lemma {:induction false} RestRead(chars: string, more: string)
    ensures ReadChars(Rest(chars) + more) == Some(Read(chars, more))
  {
    if chars == [] {
      assert (Rest(chars) + more)[1..] == more;
    } else {
      Regroup(Escaped(chars[0]), Rest(chars[1..]), more);
      EscapedRead(chars[0], Rest(chars[1..]) + more);
      RestRead(chars[1..], more);
      assert chars == [chars[0]] + chars[1..];
    }
  }

  // ----- numbers -----

  /** What may follow a number: nothing, or the comma or bracket of what encloses it. */
  predicate Delimited(s: string) {
    s == [] || s[0] in {',', ']', '}'}
  }

  function Horner(s: string, sofar: nat): nat
    requires AllDigits(s)
  {
    if s == [] then sofar else Horner(s[1..], 10 * sofar + (s[0] as nat - 48))
  }

  lemma {:induction false} HornerSnoc(s: string, c: char, sofar: nat)
    requires AllDigits(s) && IsDigit(c)
    ensures AllDigits(s + [c]) && Horner(s + [c], sofar) == 10 * Horner(s, sofar) + (c as nat - 48)
  {
    if s == [] {
      assert [] + [c] == [c] && [c][1..] == [];
    } else {
      assert (s + [c])[1..] == s[1..] + [c];
      HornerSnoc(s[1..], c, 10 * sofar + (s[0] as nat - 48));
    }
  }

  lemma {:induction false} PrintHorner(n: nat)
    ensures AllDigits(Print(n)) && Horner(Print(n), 0) == n
  {
    if n >= 10 {
      PrintHorner(n / 10);
      HornerSnoc(Print(n / 10), Digit(n % 10), 0);
    } else {
      assert Print(n)[1..] == [];
    }
  }

  lemma {:induction false} DigitsRead(s: string, sofar: nat, more: string)
    requires AllDigits(s) && Delimited(more)
    ensures ReadDigits(s + more, sofar) == Read(Horner(s, sofar), more)
  {
    if s == [] {
      assert [] + more == more;
    } else {
      assert (s + more)[1..] == s[1..] + more;
      DigitsRead(s[1..], 10 * sofar + (s[0] as nat - 48), more);
    }
  }

  lemma FirstDigit(s: string, more: string)
    requires Canonical(s) && Delimited(more)
    ensures ReadNatural(s + more) == Some(ReadDigits(s[1..] + more, s[0] as nat - 48))
  {
    assert (s + more)[0] == s[0] && (s + more)[1..] == s[1..] + more;
    assert |s| > 1 ==> (s + more)[1] == s[1];
    assert |s| == 1 && more != [] ==> (s + more)[1] == more[0];
  }

  lemma CanonicalRead(s: string, more: string)
    requires Canonical(s) && Delimited(more)
    ensures ReadNatural(s + more) == Some(Read(Horner(s, 0), more))
  {
    FirstDigit(s, more);
    DigitsRead(s[1..], s[0] as nat - 48, more);
  }

  lemma NaturalRead(n: nat, more: string)
    requires Delimited(more)
    ensures ReadNatural(Print(n) + more) == Some(Read(n, more))
  {
    PrintValue(n);
    PrintHorner(n);
    CanonicalRead(Print(n), more);
  }

  lemma MinusRead(text: string, n: nat, more: string)
    requires text != [] && text[0] == '-' && ReadNatural(text[1..]) == Some(Read(n, more))
    ensures ReadInteger(text) == Some(Read(Signed(true, n), more))
  {
  }

  lemma NegativeRead(n: nat, more: string)
    requires Delimited(more)
    ensures ReadInteger(("-" + Print(n)) + more) == Some(Read(Signed(true, n), more))
  {
    var digits := Print(n) + more;
    NaturalRead(n, more);
    assert ("-" + Print(n)) + more == ['-'] + digits && (['-'] + digits)[1..] == digits;
    MinusRead(("-" + Print(n)) + more, n, more);
  }

  lemma PositiveRead(n: nat, more: string)
    requires Delimited(more)
    ensures ReadInteger(Print(n) + more) == Some(Read(Signed(false, n), more))
  {
    PrintValue(n);
    assert (Print(n) + more)[0] == Print(n)[0];
    NaturalRead(n, more);
  }

  /** An integer is read back before a delimiter or the end. */
  lemma IntegerRead(n: int, more: string)
    requires Delimited(more)
    ensures ReadInteger(Integer(n) + more) == Some(Read(n, more))
  {
    if n < 0 {
      NegativeRead(-n, more);
    } else {
      PositiveRead(n, more);
    }
  }

  lemma IntegerStarts(n: int)
    ensures Integer(n) != [] && (Integer(n)[0] == '-' || IsDigit(Integer(n)[0]))
  {
    PrintValue(if n < 0 then -n else n);
  }

  /** Numbers alone are not prefix free: what follows them matters. */
  lemma NumbersNotPrefixFree()
    ensures Integer(1) < Integer(12)
  {
  }

  // ----- values -----

  lemma WordRead(word: string, doc: Doc, more: string)
    ensures ReadWord(word + more, word, doc) == Some(Read(doc, more))
  {
    assert (word + more)[..|word|] == word && (word + more)[|word|..] == more;
  }

  lemma PlainRead(v: Value, more: string) returns (doc: Doc)
    requires (v.Null? || v.Bool?) && FloatFree(v)
    ensures ReadDoc(Canon(v) + more) == Some(Read(doc, more)) && Spells(doc, v)
  {
    doc := if v.Null? then NullDoc else BoolDoc(v.value);
    WordRead(Canon(v), doc, more);
    assert (Canon(v) + more)[0] == Canon(v)[0];
  }

  lemma NumberRead(n: int, more: string)
    requires Delimited(more)
    ensures ReadDoc(Integer(n) + more) == Some(Read(NumberDoc(n), more))
  {
    IntegerStarts(n);
    assert (Integer(n) + more)[0] == Integer(n)[0];
    IntegerRead(n, more);
  }

  lemma QuotedRead(chars: string, more: string)
    ensures Quoted(chars) + more == ['\"'] + (Rest(chars) + more)
    ensures (Quoted(chars) + more)[1..] == Rest(chars) + more
    ensures ReadChars((Quoted(chars) + more)[1..]) == Some(Read(chars, more))
  {
    assert (['\"'] + (Rest(chars) + more))[1..] == Rest(chars) + more;
    RestRead(chars, more);
  }

  lemma TextRead(chars: string, more: string)
    ensures ReadDoc(Quoted(chars) + more) == Some(Read(TextDoc(chars), more))
  {
    QuotedRead(chars, more);
  }

  lemma Ahead(c: char, rest: string)
    ensures ([c] + rest)[1..] == rest && [c] <= [c] + rest
  {
  }

  lemma ItemsEnd(text: string, doc: Doc, more: string)
    requires ReadDoc(text) == Some(Read(doc, "]" + more))
    ensures ReadItems(text) == Some(Read([doc], more))
  {
    Ahead(']', more);
  }

  lemma ItemsGoOn(text: string, doc: Doc, tail: string, docs: seq<Doc>, more: string)
    requires ReadDoc(text) == Some(Read(doc, "," + tail)) && ReadItems(tail) == Some(Read(docs, more))
    ensures ReadItems(text) == Some(Read([doc] + docs, more))
  {
    assert ("," + tail)[0] == ',';
    Ahead(',', tail);
  }

  lemma ArrayEmpty(more: string)
    ensures ReadDoc(("[" + "]") + more) == Some(Read(ArrayDoc([]), more))
  {
    var text := ("[" + "]") + more;
    assert text[0] == '[' && text[1..] == "]" + more && text[2..] == more;
  }

  lemma ArrayRead(inside: string, docs: seq<Doc>, more: string)
    requires ReadItems(inside) == Some(Read(docs, more)) && !("]" <= inside)
    ensures ReadDoc("[" + inside) == Some(Read(ArrayDoc(docs), more))
  {
    Ahead('[', inside);
  }

  lemma CanonStarts(v: Value, more: string)
    requires FloatFree(v)
    ensures Canon(v) != [] && !("]" <= Canon(v) + more)
  {
    if v.Number? {
      IntegerStarts(v.number);
    }
    assert Canon(v) != [] ==> (Canon(v) + more)[0] == Canon(v)[0];
  }

  /** The canonical text of a value is read back as that value, with the keys of every object in order. */
  lemma {:induction false} CanonRead(v: Value, more: string) returns (doc: Doc)
    requires FloatFree(v) && Delimited(more)
    ensures ReadDoc(Canon(v) + more) == Some(Read(doc, more)) && Spells(doc, v)
    decreases v, 2, 0
  {
    match v
    case Null => doc := PlainRead(v, more);
    case Bool(_) => doc := PlainRead(v, more);
    case Number(n) =>
      doc := NumberDoc(n);
      NumberRead(n, more);
    case Text(chars) =>
      doc := TextDoc(chars);
      TextRead(chars, more);
    case Array(_) => doc := CanonArrayRead(v, more);
    case Object(_) => doc := CanonObjectRead(v, more);
  }

  lemma {:induction false} CanonArrayRead(v: Value, more: string) returns (doc: Doc)
    requires v.Array? && FloatFree(v)
    ensures ReadDoc(Canon(v) + more) == Some(Read(doc, more)) && Spells(doc, v)
    decreases v, 1, 0
  {
    if v.items == [] {
      doc := ArrayDoc([]);
      ArrayEmpty(more);
    } else {
      var docs := ItemsRead(v, 0, more);
      doc := ArrayDoc(docs);
      ArraySpells(v, docs);
      ArrayCanonRead(v, docs, more);
    }
  }

  lemma ArrayCanonRead(v: Value, docs: seq<Doc>, more: string)
    requires v.Array? && FloatFree(v) && v.items != []
    requires ReadItems(Canon(v.items[0]) + (Items(v, 1) + more)) == Some(Read(docs, more))
    ensures ReadDoc(Canon(v) + more) == Some(Read(ArrayDoc(docs), more))
  {
    ItemsSplit(v, 0, more);
    CanonStarts(v.items[0], Items(v, 1) + more);
    ArrayRead(Canon(v.items[0]) + (Items(v, 1) + more), docs, more);
    Regroup("[", Items(v, 0), more);
  }

  ghost predicate ItemsSpell(docs: seq<Doc>, v: Value, i: nat) {
    v.Array? && |docs| == |v.items| - i && forall j :: 0 <= j < |docs| ==> Spells(docs[j], v.items[i + j])
  }

  lemma ItemsSpellCons(doc: Doc, docs: seq<Doc>, v: Value, i: nat)
    requires v.Array? && i < |v.items| && Spells(doc, v.items[i]) && ItemsSpell(docs, v, i + 1)
    ensures ItemsSpell([doc] + docs, v, i)
  {
    forall j | 0 <= j < |docs| + 1
      ensures Spells(([doc] + docs)[j], v.items[i + j])
    {
      if j > 0 {
        assert ([doc] + docs)[j] == docs[j - 1] && v.items[i + j] == v.items[(i + 1) + (j - 1)];
      }
    }
  }

  lemma ArraySpells(v: Value, docs: seq<Doc>)
    requires ItemsSpell(docs, v, 0)
    ensures Spells(ArrayDoc(docs), v)
  {
    assert forall j :: 0 <= j < |docs| ==> v.items[0 + j] == v.items[j];
  }

  lemma Regroup3<T>(a: seq<T>, b: seq<T>, c: seq<T>, d: seq<T>)
    ensures (a + b + c) + d == a + (b + (c + d))
  {
  }

  lemma ItemsSplit(v: Value, i: nat, more: string)
    requires v.Array? && FloatFree(v) && i < |v.items|
    ensures Items(v, i) + more == (if i == 0 then "" else ",") + (Canon(v.items[i]) + (Items(v, i + 1) + more))
    ensures i == 0 ==> Items(v, i) + more == Canon(v.items[i]) + (Items(v, i + 1) + more)
  {
    Regroup3(if i == 0 then "" else ",", Canon(v.items[i]), Items(v, i + 1), more);
    assert "" + (Canon(v.items[i]) + (Items(v, i + 1) + more)) == Canon(v.items[i]) + (Items(v, i + 1) + more);
  }

  lemma ItemsDelimited(v: Value, i: nat, more: string)
    requires v.Array? && FloatFree(v) && 0 < i <= |v.items|
    ensures Delimited(Items(v, i) + more)
  {
  }

  lemma {:induction false} ItemsRead(v: Value, i: nat, more: string) returns (docs: seq<Doc>)
    requires v.Array? && FloatFree(v) && i < |v.items|
    ensures ReadItems(Canon(v.items[i]) + (Items(v, i + 1) + more)) == Some(Read(docs, more))
    ensures ItemsSpell(docs, v, i)
    decreases v, 0, |v.items| - i
  {
    var text := Canon(v.items[i]) + (Items(v, i + 1) + more);
    ItemsDelimited(v, i + 1, more);
    var doc := CanonRead(v.items[i], Items(v, i + 1) + more);
    if i + 1 == |v.items| {
      docs := [doc];
      ItemsEnd(text, doc, more);
      ItemsSpellCons(doc, [], v, i);
    } else {
      var rest := ItemsRead(v, i + 1, more);
      docs := [doc] + rest;
      ItemsSplit(v, i + 1, more);
      ItemsGoOn(text, doc, Canon(v.items[i + 1]) + (Items(v, i + 2) + more), rest, more);
      ItemsSpellCons(doc, rest, v, i);
    }
  }

  // ----- objects -----

  lemma MemberRead(key: string, doc: Doc, tail: string, more: string)
    requires ReadDoc(tail) == Some(Read(doc, more))
    ensures ReadMember(Quoted(key) + (":" + tail)) == Some(Read(Member(key, doc), more))
  {
    QuotedRead(key, ":" + tail);
    Ahead('\"', Rest(key) + (":" + tail));
    Ahead(':', tail);
  }

  lemma MembersEnd(text: string, member: Member, more: string)
    requires ReadMember(text) == Some(Read(member, "}" + more))
    ensures ReadMembers(text) == Some(Read([member], more))
  {
    Ahead('}', more);
  }

  lemma MembersGoOn(text: string, member: Member, tail: string, members: seq<Member>, more: string)
    requires ReadMember(text) == Some(Read(member, "," + tail)) && ReadMembers(tail) == Some(Read(members, more))
    ensures ReadMembers(text) == Some(Read([member] + members, more))
  {
    assert ("," + tail)[0] == ',';
    Ahead(',', tail);
  }

  lemma ObjectEmpty(more: string)
    ensures ReadDoc(("{" + "}") + more) == Some(Read(ObjectDoc([]), more))
  {
    var text := ("{" + "}") + more;
    assert text[0] == '{' && text[1..] == "}" + more && text[2..] == more;
  }

  lemma ObjectRead(inside: string, members: seq<Member>, more: string)
    requires ReadMembers(inside) == Some(Read(members, more)) && !("}" <= inside)
    ensures ReadDoc("{" + inside) == Some(Read(ObjectDoc(members), more))
  {
    Ahead('{', inside);
  }

  ghost predicate Has(v: Value, keys: seq<string>) {
    v.Object? && FloatFree(v) && forall k :: k in keys ==> k in v.fields
  }

  /** The text of the fields `keys`, from the first quote on. */
  ghost function FieldText(v: Value, keys: seq<string>, more: string): string
    requires Has(v, keys) && keys != []
  {
    Quoted(keys[0]) + (":" + (Canon(v.fields[keys[0]]) + (Fields(v, keys[1..], false) + more)))
  }

  lemma Regroup5<T>(a: seq<T>, b: seq<T>, c: seq<T>, d: seq<T>, e: seq<T>, f: seq<T>)
    ensures (a + b + c + d + e) + f == a + (b + (c + (d + (e + f))))
  {
  }

  lemma FieldsSplit(v: Value, keys: seq<string>, first: bool, more: string)
    requires Has(v, keys) && keys != []
    ensures Fields(v, keys, first) + more == (if first then "" else ",") + FieldText(v, keys, more)
    ensures first ==> Fields(v, keys, first) + more == FieldText(v, keys, more)
  {
    Regroup5(if first then "" else ",", Quoted(keys[0]), ":", Canon(v.fields[keys[0]]), Fields(v, keys[1..], false), more);
    assert "" + FieldText(v, keys, more) == FieldText(v, keys, more);
  }

  lemma FieldsDelimited(v: Value, keys: seq<string>, more: string)
    requires Has(v, keys)
    ensures Delimited(Fields(v, keys, false) + more)
  {
  }

  ghost predicate MembersSpell(members: seq<Member>, v: Value, keys: seq<string>) {
    && |members| == |keys| && v.Object?
    && forall i :: 0 <= i < |keys| ==> members[i].key == keys[i] && keys[i] in v.fields && Spells(members[i].doc, v.fields[keys[i]])
  }

  lemma MembersSpellCons(member: Member, members: seq<Member>, v: Value, keys: seq<string>)
    requires keys != [] && MembersSpell(members, v, keys[1..]) && member.key == keys[0]
    requires keys[0] in v.fields && Spells(member.doc, v.fields[keys[0]])
    ensures MembersSpell([member] + members, v, keys)
  {
    forall i | 0 <= i < |keys|
      ensures ([member] + members)[i].key == keys[i] && keys[i] in v.fields && Spells(([member] + members)[i].doc, v.fields[keys[i]])
    {
      if i > 0 {
        assert keys[1..][i - 1] == keys[i] && ([member] + members)[i] == members[i - 1];
      }
    }
  }

  lemma {:induction false} FieldsRead(v: Value, keys: seq<string>, more: string) returns (members: seq<Member>)
    requires Has(v, keys) && keys != []
    ensures ReadMembers(FieldText(v, keys, more)) == Some(Read(members, more)) && MembersSpell(members, v, keys)
    decreases v, 0, |keys|
  {
    var text, tail := FieldText(v, keys, more), Fields(v, keys[1..], false) + more;
    FieldsDelimited(v, keys[1..], more);
    var doc := CanonRead(v.fields[keys[0]], tail);
    var member := Member(keys[0], doc);
    MemberRead(keys[0], doc, Canon(v.fields[keys[0]]) + tail, tail);
    if keys[1..] == [] {
      members := [member];
      MembersEnd(text, member, more);
      MembersSpellCons(member, [], v, keys);
    } else {
      var rest := FieldsRead(v, keys[1..], more);
      members := [member] + rest;
      FieldsSplit(v, keys[1..], false, more);
      MembersGoOn(text, member, FieldText(v, keys[1..], more), rest, more);
      MembersSpellCons(member, rest, v, keys);
    }
  }

  lemma ObjectSpells(v: Value, keys: seq<string>, members: seq<Member>)
    requires v.Object? && keys == InOrder(v.fields.Keys) && MembersSpell(members, v, keys)
    ensures Spells(ObjectDoc(members), v)
  {
    InOrderElements(v.fields.Keys);
    InOrderAscends(v.fields.Keys);
    forall k
      ensures k in v.fields <==> exists i :: 0 <= i < |members| && members[i].key == k
    {
      assert k in v.fields <==> k in Elements(keys);
    }
    forall i, j | 0 <= i < j < |members|
      ensures Precedes(members[i].key, members[j].key)
    {
      BeforeIff(keys[i], keys[j]);
    }
  }

  lemma {:induction false} CanonObjectRead(v: Value, more: string) returns (doc: Doc)
    requires v.Object? && FloatFree(v)
    ensures ReadDoc(Canon(v) + more) == Some(Read(doc, more)) && Spells(doc, v)
    decreases v, 1, 0
  {
    var keys := InOrder(v.fields.Keys);
    InOrderElements(v.fields.Keys);
    if keys == [] {
      doc := ObjectDoc([]);
      ObjectEmpty(more);
    } else {
      assert Has(v, keys);
      var members := FieldsRead(v, keys, more);
      doc := ObjectDoc(members);
      FieldsSplit(v, keys, true, more);
      assert FieldText(v, keys, more)[0] == '\"';
      ObjectRead(FieldText(v, keys, more), members, more);
      Regroup("{", Fields(v, keys, true), more);
      ObjectSpells(v, keys, members);
    }
  }

  // ----- what the text determines -----

  lemma {:induction false} SpellsUnique(doc: Doc, v: Value, w: Value)
    requires Spells(doc, v) && Spells(doc, w)
    ensures v == w
    decreases doc, 1
  {
    match doc
    case ArrayDoc(docs) => ArrayUnique(doc, v, w);
    case ObjectDoc(members) => ObjectUnique(doc, v, w);
    case _ =>
  }

  lemma {:induction false} ArrayUnique(doc: Doc, v: Value, w: Value)
    requires doc.ArrayDoc? && Spells(doc, v) && Spells(doc, w)
    ensures v == w
    decreases doc, 0
  {
    var docs, xs, ys := doc.docs, v.items, w.items;
    forall i | 0 <= i < |docs|
      ensures xs[i] == ys[i]
    {
      SpellsUnique(docs[i], xs[i], ys[i]);
    }
    assert xs == ys;
  }

  lemma {:induction false} ObjectUnique(doc: Doc, v: Value, w: Value)
    requires doc.ObjectDoc? && Spells(doc, v) && Spells(doc, w)
    ensures v == w
    decreases doc, 0
  {
    var members, f, g := doc.members, v.fields, w.fields;
    assert f.Keys == g.Keys;
    forall k | k in f
      ensures f[k] == g[k]
    {
      var i :| 0 <= i < |members| && members[i].key == k;
      SpellsUnique(members[i].doc, f[k], g[k]);
    }
    assert f == g;
  }

  /** Distinct values have distinct canonical text, and neither is the beginning of the other before a delimiter. */
  lemma CanonUnique(v: Value, w: Value, s: string, t: string)
    requires FloatFree(v) && FloatFree(w) && Delimited(s) && Delimited(t) && Canon(v) + s == Canon(w) + t
    ensures v == w && s == t
  {
    var doc := CanonRead(v, s);
    var doc' := CanonRead(w, t);
    SpellsUnique(doc, v, w);
  }

  lemma CanonInjective(v: Value, w: Value)
    requires FloatFree(v) && FloatFree(w)
    ensures Canon(v) == Canon(w) <==> v == w
  {
    if Canon(v) == Canon(w) {
      CanonUnique(v, w, [], []);
    }
  }

  /** Only values without non-integer numbers can be spelled. */
  lemma {:induction false} SpelledFloatFree(doc: Doc, v: Value)
    requires Spells(doc, v)
    ensures FloatFree(v)
    decreases doc
  {
    match doc
    case ArrayDoc(docs) =>
      forall i | 0 <= i < |v.items|
        ensures FloatFree(v.items[i])
      {
        SpelledFloatFree(docs[i], v.items[i]);
      }
    case ObjectDoc(members) =>
      forall k | k in v.fields
        ensures FloatFree(v.fields[k])
      {
        var i :| 0 <= i < |members| && members[i].key == k;
        SpelledFloatFree(members[i].doc, v.fields[k]);
      }
    case _ =>
  }

  ghost predicate Spellable(v: Value) {
    exists doc :: Spells(doc, v)
  }

  lemma FloatFreeIffSpellable(v: Value)
    ensures FloatFree(v) <==> Spellable(v)
  {
    if FloatFree(v) {
      var doc := CanonRead(v, []);
      assert Spells(doc, v);
    }
    if Spellable(v) {
      var doc :| Spells(doc, v);
      SpelledFloatFree(doc, v);
    }
  }

  /** Text that is read completely as a document that spells `v`. */
  ghost predicate TextOf(text: string, v: Value) {
    exists doc :: ReadDoc(text) == Some(Read(doc, [])) && Spells(doc, v)
  }

  /** The canonical text of a request, before it is hashed. */
  method CanonicalText(v: Value) returns (r: Option<string>)
    ensures r.Some? <==> Spellable(v)
    ensures r.Some? ==> FloatFree(v) && r.value == Canon(v) && TextOf(r.value, v)
  {
    FloatFreeIffSpellable(v);
    r := Append(v, "");
    if r.Some? {
      var doc := CanonRead(v, []);
      assert Canon(v) + [] == Canon(v) && "" + Canon(v) == Canon(v);
    }
  }
}
