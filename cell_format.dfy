/**
 * The server-side cell formatter of the Automation Helper plugin: how one raw
 * database value is sniffed (null, empty, serialized, JSON, long text, binary,
 * text) and which HTML display it is given.
 */
module CellFormat {
  import opened Wrappers
  import opened Strings

  /** An array key: PHP arrays are keyed by integers or by strings. */
  datatype Key = IntKey(i: int) | StrKey(s: string)

  /** The PHP values unserialize() and json_decode() produce. A float is kept
      as the text PHP prints for it. */
  datatype PhpValue =
    | PNull
    | PBool(b: bool)
    | PInt(i: int)
    | PFloat(text: string)
    | PStr(s: string)
    | PArray(entries: seq<(Key, PhpValue)>)
    | PObject(className: string, props: seq<(Key, PhpValue)>)

  /** The PHP library functions the formatter calls, taken as given. */
  datatype Oracles = Oracles(
    // unserialize($s); PBool(false) when $s does not unserialize
    unserialize: string -> PhpValue,
    // json_decode($s) in object mode leaves no error (the test of ahjah_is_json)
    jsonValid: string -> bool,
    // json_decode($s, true); None when json_last_error() reports an error
    jsonDecode: string -> Option<PhpValue>,
    escHtml: string -> string,
    // print_r($v, true)
    printR: PhpValue -> string,
    jsonEncode: PhpValue -> string)

  /** The 'type' tag of a formatted cell. */
  datatype CellType = Null | Empty | Serialized | Json | LongText | Binary | Text

  function TypeName(t: CellType): string {
    match t
    case Null => "null"
    case Empty => "empty"
    case Serialized => "serialized"
    case Json => "json"
    case LongText => "long_text"
    case Binary => "binary"
    case Text => "text"
  }

  /** The array ahjah_format_cell_data returns; a key the PHP array lacks is
      false (expandable) or None (full_text). */
  datatype FormattedCell = FormattedCell(
    display: string,
    raw: Option<string>,
    kind: CellType,
    expandable: bool,
    fullText: Option<string>)

  /** Longer values than this are shown truncated. */
  const MaxLength: nat := 100

  // ---------------------------------------------------------------------
  // ahjah_is_serialized: five anchored PCRE signatures

  /** The index just past the run of ASCII digits that starts at i. */
  function DigitsEnd(s: string, i: nat): (j: nat)
    requires i <= |s|
    ensures i <= j <= |s|
    ensures forall k :: i <= k < j ==> IsDigit(s[k])
    ensures j == |s| || !IsDigit(s[j])
    decreases |s| - i
  {
    if i < |s| && IsDigit(s[i]) then DigitsEnd(s, i + 1) else i
  }

  /** The index of the first double quote at or after i, or |s| if there is none. */
  function QuoteFrom(s: string, i: nat): (q: nat)
    requires i <= |s|
    ensures i <= q <= |s|
    ensures forall k :: i <= k < q ==> s[k] != '"'
    ensures q < |s| ==> s[q] == '"'
    decreases |s| - i
  {
    if i < |s| && s[i] != '"' then QuoteFrom(s, i + 1) else i
  }

  predicate NoNewline(s: string) {
    forall i :: 0 <= i < |s| ==> s[i] != '\n'
  }

  /** `^T:\d+` for the tag letter T. */
  predicate TagAndLength(t: string, tag: char) {
    |t| >= 3 && t[0] == tag && t[1] == ':' && DigitsEnd(t, 2) > 2
  }

  /** /^a:\d+:\{.*\}$/ */
  function ArraySignature(s: string): (b: bool)
    ensures b ==> |s| >= 3 && s[0] == 'a' && s[1] == ':'
  {
    var t := DollarSubject(s);
    TagAndLength(t, 'a') &&
    var d := DigitsEnd(t, 2);
    d + 3 <= |t| && t[d] == ':' && t[d + 1] == '{' && t[|t| - 1] == '}' && NoNewline(t[d + 2..|t| - 1])
  }

  /** /^s:\d+:".*";$/ */
  function StringSignature(s: string): (b: bool)
    ensures b ==> |s| >= 3 && s[0] == 's' && s[1] == ':'
  {
    var t := DollarSubject(s);
    TagAndLength(t, 's') &&
    var d := DigitsEnd(t, 2);
    d + 4 <= |t| && t[d] == ':' && t[d + 1] == '"' && t[|t| - 2] == '"' && t[|t| - 1] == ';'
    && NoNewline(t[d + 2..|t| - 2])
  }

  /** /^i:\d+;$/ */
  function IntSignature(s: string): (b: bool)
    ensures b ==> |s| >= 3 && s[0] == 'i' && s[1] == ':'
  {
    var t := DollarSubject(s);
    TagAndLength(t, 'i') && DigitsEnd(t, 2) == |t| - 1 && t[|t| - 1] == ';'
  }

  /** /^b:[01];$/ */
  function BoolSignature(s: string): (b: bool)
    ensures b ==> |s| >= 3 && s[0] == 'b' && s[1] == ':'
  {
    var t := DollarSubject(s);
    t == "b:0;" || t == "b:1;"
  }

  /** /^O:\d+:"[^"]+":/ (a prefix: this pattern has no `$`) */
  function ObjectSignature(s: string): (b: bool)
    ensures b ==> |s| >= 3 && s[0] == 'O' && s[1] == ':'
  {
    TagAndLength(s, 'O') &&
    var d := DigitsEnd(s, 2);
    d + 2 < |s| && s[d] == ':' && s[d + 1] == '"' &&
    var q := QuoteFrom(s, d + 2);
    q > d + 2 && q + 1 < |s| && s[q + 1] == ':'
  }

  /** ahjah_is_serialized: not blank, and one of the five signatures matches. */
  function IsSerialized(s: string): (b: bool)
    ensures b ==> |s| >= 3 && s[0] in {'a', 's', 'i', 'b', 'O'} && s[1] == ':'
  {
    Trim(s) != []
    && (ArraySignature(s) || StringSignature(s) || IntSignature(s) || BoolSignature(s) || ObjectSignature(s))
  }

  /** A non-empty run of ASCII digits: `\d+`. */
  predicate Numeral(d: string) {
    d != [] && forall i :: 0 <= i < |d| ==> IsDigit(d[i])
  }

  /** s is `line`, or `line` followed by the one newline `$` lets through. */
  predicate LineOrLineNewline(s: string, line: string) {
    s == line || s == line + "\n"
  }

  /** s reads `a:` d `:{` body `}`, with an optional final newline. */
  predicate ArrayForm(s: string, d: string, body: string) {
    Numeral(d) && NoNewline(body) && LineOrLineNewline(s, "a:" + d + ":{" + body + "}")
  }

  /** s reads `s:` d `:"` body `";`, with an optional final newline. */
  predicate StringForm(s: string, d: string, body: string) {
    Numeral(d) && NoNewline(body) && LineOrLineNewline(s, "s:" + d + ":\"" + body + "\";")
  }

  /** s reads `i:` d `;`, with an optional final newline. */
  predicate IntForm(s: string, d: string) {
    Numeral(d) && LineOrLineNewline(s, "i:" + d + ";")
  }

  /** s starts `O:` d `:"` name `":`, the name non-empty and free of quotes. */
  predicate ObjectForm(s: string, d: string, name: string, rest: string) {
    Numeral(d) && name != [] && '"' !in name && s == "O:" + d + ":\"" + name + "\":" + rest
  }

  /** DigitsEnd is the end of any maximal digit run. */
  lemma DigitsEndAt(t: string, i: nat, j: nat)
    requires i <= j <= |t|
    requires forall k :: i <= k < j ==> IsDigit(t[k])
    requires j == |t| || !IsDigit(t[j])
    ensures DigitsEnd(t, i) == j
  {
  }

  /** QuoteFrom finds the first quote. */
  lemma QuoteFromAt(t: string, i: nat, q: nat)
    requires i <= q < |t| && t[q] == '"'
    requires forall k :: i <= k < q ==> t[k] != '"'
    ensures QuoteFrom(t, i) == q
  {
  }

  /** A line that does not end in a newline is what `$` matches against. */
  lemma DollarOfLine(s: string, line: string)
    requires LineOrLineNewline(s, line) && line != [] && line[|line| - 1] != '\n'
    ensures DollarSubject(s) == line
  {
    if s != line {
      assert s[..|s| - 1] == line;
    }
  }

  /** The subject `$` leaves is the value, or the value less one final newline. */
  lemma LineOfDollar(s: string)
    ensures LineOrLineNewline(s, DollarSubject(s))
  {
    var t := DollarSubject(s);
    if t != s {
      assert s == t + [s[|s| - 1]];
    }
  }

  /** An array signature splits into its length digits and its body. */
  lemma ArraySignatureShape(s: string)
    requires ArraySignature(s)
    ensures exists d, body :: ArrayForm(s, d, body)
  {
    var t := DollarSubject(s);
    var e := DigitsEnd(t, 2);
    var d, body := t[2..e], t[e + 2..|t| - 1];
    assert t[..2] == "a:" && t[e..e + 2] == ":{" && t[|t| - 1..] == "}";
    assert t == t[..2] + d + t[e..e + 2] + body + t[|t| - 1..];
    LineOfDollar(s);
    assert ArrayForm(s, d, body);
  }

  /** Every ArrayForm string is an array signature. */
  lemma ArrayFormSignature(s: string, d: string, body: string)
    requires ArrayForm(s, d, body)
    ensures ArraySignature(s)
  {
    var t := "a:" + d + ":{" + body + "}";
    DollarOfLine(s, t);
    DigitsEndAt(t, 2, 2 + |d|);
    assert t[2 + |d| + 2..|t| - 1] == body;
  }

  /** /^a:\d+:\{.*\}$/ accepts exactly the ArrayForm strings. */
  lemma ArraySignatureForm(s: string)
    ensures ArraySignature(s) <==> exists d, body :: ArrayForm(s, d, body)
  {
    if ArraySignature(s) {
      ArraySignatureShape(s);
    }
    if exists d, body :: ArrayForm(s, d, body) {
      var d, body :| ArrayForm(s, d, body);
      ArrayFormSignature(s, d, body);
    }
  }

  /** A string signature splits into its length digits and its body. */
  lemma StringSignatureShape(s: string)
    requires StringSignature(s)
    ensures exists d, body :: StringForm(s, d, body)
  {
    var t := DollarSubject(s);
    var e := DigitsEnd(t, 2);
    var d, body := t[2..e], t[e + 2..|t| - 2];
    assert t[..2] == "s:" && t[e..e + 2] == ":\"" && t[|t| - 2..] == "\";";
    assert t == t[..2] + d + t[e..e + 2] + body + t[|t| - 2..];
    LineOfDollar(s);
    assert StringForm(s, d, body);
  }

  /** Every StringForm string is a string signature. */
  lemma StringFormSignature(s: string, d: string, body: string)
    requires StringForm(s, d, body)
    ensures StringSignature(s)
  {
    var t := "s:" + d + ":\"" + body + "\";";
    DollarOfLine(s, t);
    DigitsEndAt(t, 2, 2 + |d|);
    assert t[2 + |d| + 2..|t| - 2] == body;
  }

  /** /^s:\d+:".*";$/ accepts exactly the StringForm strings. */
  lemma StringSignatureForm(s: string)
    ensures StringSignature(s) <==> exists d, body :: StringForm(s, d, body)
  {
    if StringSignature(s) {
      StringSignatureShape(s);
    }
    if exists d, body :: StringForm(s, d, body) {
      var d, body :| StringForm(s, d, body);
      StringFormSignature(s, d, body);
    }
  }

  /** /^i:\d+;$/ accepts exactly the IntForm strings. */
  lemma IntSignatureForm(s: string)
    ensures IntSignature(s) <==> exists d :: IntForm(s, d)
  {
    if IntSignature(s) {
      var t := DollarSubject(s);
      var d := t[2..|t| - 1];
      assert t == "i:" + d + ";";
      LineOfDollar(s);
      assert IntForm(s, d);
    }
    if exists d :: IntForm(s, d) {
      var d :| IntForm(s, d);
      var t := "i:" + d + ";";
      DollarOfLine(s, t);
      DigitsEndAt(t, 2, 2 + |d|);
    }
  }

  /** /^b:[01];$/ accepts exactly four strings. */
  lemma BoolSignatureForm(s: string)
    ensures BoolSignature(s) <==> s in {"b:0;", "b:1;", "b:0;\n", "b:1;\n"}
  {
    if BoolSignature(s) {
      LineOfDollar(s);
    }
    if s == "b:0;" || s == "b:0;\n" {
      DollarOfLine(s, "b:0;");
      assert BoolSignature(s);
    } else if s == "b:1;" || s == "b:1;\n" {
      DollarOfLine(s, "b:1;");
      assert BoolSignature(s);
    }
  }

  /** /^O:\d+:"[^"]+":/ accepts exactly the ObjectForm strings. */
  lemma ObjectSignatureForm(s: string)
    ensures ObjectSignature(s) <==> exists d, name, rest :: ObjectForm(s, d, name, rest)
  {
    if ObjectSignature(s) {
      var e := DigitsEnd(s, 2);
      var q := QuoteFrom(s, e + 2);
      var d, name, rest := s[2..e], s[e + 2..q], s[q + 2..];
      assert '"' !in name by {
        forall k | 0 <= k < |name| ensures name[k] != '"' {
          assert name[k] == s[e + 2 + k];
        }
      }
      assert s == "O:" + d + ":\"" + name + "\":" + rest;
      assert ObjectForm(s, d, name, rest);
    }
    if exists d, name, rest :: ObjectForm(s, d, name, rest) {
      var d, name, rest :| ObjectForm(s, d, name, rest);
      var e := 2 + |d|;
      DigitsEndAt(s, 2, e);
      assert s[e + 2..e + 2 + |name|] == name;
      QuoteFromAt(s, e + 2, e + 2 + |name|);
    }
  }

  /** ahjah_is_serialized accepts a value exactly when one of the five
      signatures does; a blank value matches none of them. */
  lemma IsSerializedForms(s: string)
    ensures IsSerialized(s) <==>
      (exists d, body :: ArrayForm(s, d, body)) || (exists d, body :: StringForm(s, d, body))
      || (exists d :: IntForm(s, d)) || s in {"b:0;", "b:1;", "b:0;\n", "b:1;\n"}
      || (exists d, name, rest :: ObjectForm(s, d, name, rest))
  {
    ArraySignatureForm(s);
    StringSignatureForm(s);
    IntSignatureForm(s);
    BoolSignatureForm(s);
    ObjectSignatureForm(s);
    if ArraySignature(s) || StringSignature(s) || IntSignature(s) || BoolSignature(s) || ObjectSignature(s) {
      TrimFirst(s, 0);
    }
  }

  /** `$` lets a signature end before one final newline. */
  lemma TrailingNewlineSignature()
    ensures IsSerialized("i:7;\n")
  {
    var s := "i:7;\n";
    assert !IsTrimChar(s[0]);
    assert IntSignature(s) by {
      var t := DollarSubject(s);
      assert t == "i:7;";
      assert DigitsEnd(t, 2) == 3 by {
        assert IsDigit(t[2]) && !IsDigit(t[3]);
        assert DigitsEnd(t, 3) == 3;
      }
    }
  }

  /** The signatures are anchored at the start: leading blanks defeat them. */
  lemma LeadingBlankSignature()
    ensures !IsSerialized(" i:7;")
  {
    var s := " i:7;";
    assert DollarSubject(s) == s;
    assert s[0] == ' ';
    assert !ArraySignature(s) && !StringSignature(s) && !IntSignature(s);
    assert !BoolSignature(s) && !ObjectSignature(s);
  }

  // ---------------------------------------------------------------------
  // ahjah_is_json

  /** ahjah_is_json: the trimmed value starts with `{` or `[` and decodes. */
  function IsJson(s: string, o: Oracles): (b: bool)
    ensures b ==> ('{' in s || '[' in s) && o.jsonValid(s)
  {
    var t := Trim(s);
    t != [] && (t[0] == '{' || t[0] == '[') && o.jsonValid(s)
  }

  /** The trim characters before position k. */
  predicate BlankBefore(s: string, k: nat)
    requires k <= |s|
  {
    forall i :: 0 <= i < k ==> IsTrimChar(s[i])
  }

  /** ahjah_is_json accepts a value exactly when its first byte that is not a
      trim character is `{` or `[` and json_decode() reports no error. */
  lemma JsonStartsWithBrace(s: string, o: Oracles)
    ensures IsJson(s, o) <==>
      o.jsonValid(s) && exists k :: 0 <= k < |s| && BlankBefore(s, k) && (s[k] == '{' || s[k] == '[')
  {
    if IsJson(s, o) {
      var l := TrimLeft(s);
      var k := |s| - |l|;
      assert Trim(s) == TrimRight(l);
      assert l != [] && Trim(s)[0] == l[0];
      assert l[0] == s[k];
      assert BlankBefore(s, k);
    }
    if o.jsonValid(s) && exists k :: 0 <= k < |s| && BlankBefore(s, k) && (s[k] == '{' || s[k] == '[') {
      var k :| 0 <= k < |s| && BlankBefore(s, k) && (s[k] == '{' || s[k] == '[');
      TrimFirst(s, k);
    }
  }

  /** The two sniffers never both accept a value: a serialized signature
      starts with its type letter, which trim() keeps, and no JSON text can. */
  lemma SerializedIsNotJson(s: string, o: Oracles)
    ensures IsSerialized(s) ==> !IsJson(s, o)
  {
    if IsSerialized(s) {
      TrimFirst(s, 0);
    }
  }

  // ---------------------------------------------------------------------
  // ahjah_is_binary

  /** A byte below 32 other than tab, newline and carriage return. */
  predicate NonPrintable(c: char) {
    c as int < 32 && c != '\t' && c != '\n' && c != '\r'
  }

  function NonPrintableCount(s: string): (n: nat)
    ensures n <= |s|
  {
    if s == [] then 0
    else NonPrintableCount(s[..|s| - 1]) + (if NonPrintable(s[|s| - 1]) then 1 else 0)
  }

  /** What ahjah_is_binary decides: a NUL byte, or a share of non-printable
      bytes above 30% (`$non_printable / $length > 0.3`, in exact arithmetic). */
  predicate BinaryContent(s: string) {
    '\0' in s || (|s| > 0 && 10 * NonPrintableCount(s) > 3 * |s|)
  }

  /** ahjah_is_binary */
  method IsBinary(s: string) returns (b: bool)
    ensures b == BinaryContent(s)
  {
    if '\0' in s {
      return true;
    }
    var length := |s|;
    if length == 0 {
      return false;
    }
    var nonPrintable := 0;
    for i := 0 to length
      invariant nonPrintable == NonPrintableCount(s[..i])
    {
      assert s[..i + 1][..i] == s[..i];
      var c := s[i] as int;
      if c < 32 && c != 9 && c != 10 && c != 13 {
        nonPrintable := nonPrintable + 1;
      }
    }
    assert s[..length] == s;
    b := 10 * nonPrintable > 3 * length;
  }

  lemma {:induction false} NoControlByteNoCount(s: string)
    requires forall i :: 0 <= i < |s| ==> !NonPrintable(s[i])
    ensures NonPrintableCount(s) == 0
  {
    if s != [] {
      NoControlByteNoCount(s[..|s| - 1]);
    }
  }

  lemma {:induction false} NonPrintableWitness(s: string)
    requires NonPrintableCount(s) > 0
    ensures exists i :: 0 <= i < |s| && NonPrintable(s[i])
  {
    var last := |s| - 1;
    if !NonPrintable(s[last]) {
      NonPrintableWitness(s[..last]);
      var i :| 0 <= i < last && NonPrintable(s[..last][i]);
      assert NonPrintable(s[i]);
    }
  }

  /** Binary content always holds a control byte: text made of printable
      bytes, tabs and line breaks never counts as binary. */
  lemma BinaryNeedsControlByte(s: string)
    requires BinaryContent(s)
    ensures exists i :: 0 <= i < |s| && NonPrintable(s[i])
  {
    if '\0' !in s {
      NonPrintableWitness(s);
    }
  }

  // ---------------------------------------------------------------------
  // ahjah_array_preview and ahjah_object_preview

  /** How a preview prints one value: a string quoted and cut to 20 bytes, a
      number as itself, anything else by its gettype() name. */
  function ValueText(v: PhpValue): string {
    match v
    case PStr(s) => "\"" + s[..if |s| < 20 then |s| else 20] + "\""
    case PInt(i) => IntToString(i)
    case PFloat(t) => t
    case PNull => "NULL"
    case PBool(_) => "boolean"
    case PArray(_) => "array"
    case PObject(_, _) => "object"
  }

  function KeyText(k: Key): string {
    match k
    case IntKey(i) => IntToString(i)
    case StrKey(s) => s
  }

  function EntryText(e: (Key, PhpValue)): string {
    KeyText(e.0) + ": " + ValueText(e.1)
  }

  /** How many entries the preview loop prints before it stops. */
  function ShownCount(n: nat, maxItems: int): (k: nat)
    ensures k <= n
  {
    if maxItems <= 0 then 0 else if maxItems < n then maxItems else n
  }

  /** The items the preview loop collects: the first entries, then "..." if
      any entry is left over. */
  function PreviewItems(entries: seq<(Key, PhpValue)>, maxItems: int): seq<string> {
    var k := ShownCount(|entries|, maxItems);
    seq(k, i requires 0 <= i < k => EntryText(entries[i])) + (if |entries| > k then ["..."] else [])
  }

  /** A preview with the limit 3 used by the formatter: at most three
      `key: value` entries, and a final "..." exactly when there are more. */
  lemma PreviewOfThree(entries: seq<(Key, PhpValue)>)
    ensures var items := PreviewItems(entries, 3);
      && |items| == (if |entries| <= 3 then |entries| else 4)
      && (forall i :: 0 <= i < |items| && i < 3 && i < |entries| ==> items[i] == EntryText(entries[i]))
      && ("..." in items <==> |entries| > 3)
  {
    var items := PreviewItems(entries, 3);
    forall i | 0 <= i < |items| && i < 3 && i < |entries|
      ensures items[i] != "..."
    {
      var e := EntryText(entries[i]);
      assert e[|KeyText(entries[i].0)|] == ':';
      assert |e| > 3 ==> e != "...";
    }
  }

  /** A string value appears quoted, cut to its first 20 bytes. */
  lemma StringValueCut(s: string)
    ensures var t := ValueText(PStr(s));
      && |t| == (if |s| < 20 then |s| else 20) + 2
      && t[1..|t| - 1] == s[..|t| - 2]
  {
  }

  /** The foreach loop shared by both previews: appends entries, and "..."
      followed by break once the limit is reached. */
  method CollectPreviewItems(entries: seq<(Key, PhpValue)>, maxItems: int) returns (items: seq<string>)
    ensures items == PreviewItems(entries, maxItems)
  {
    ghost var k := ShownCount(|entries|, maxItems);
    items := [];
    var count := 0;
    while count < |entries|
      invariant 0 <= count <= k
      invariant items == seq(count, i requires 0 <= i < count => EntryText(entries[i]))
    {
      if count >= maxItems {
        items := items + ["..."];
        break;
      }
      items := items + [EntryText(entries[count])];
      count := count + 1;
    }
  }

  /** What ahjah_array_preview returns. */
  function ArrayPreviewText(value: PhpValue, maxItems: int): string {
    if !value.PArray? || value.entries == [] then ""
    else "{" + Implode(", ", PreviewItems(value.entries, maxItems)) + "}"
  }

  /** What ahjah_object_preview returns: unlike the array preview it gives
      "{}" for an object without properties. */
  function ObjectPreviewText(value: PhpValue, maxProps: int): string {
    if !value.PObject? then ""
    else "{" + Implode(", ", PreviewItems(value.props, maxProps)) + "}"
  }

  /** ahjah_array_preview */
  method ArrayPreview(value: PhpValue, maxItems: int) returns (preview: string)
    ensures preview == ArrayPreviewText(value, maxItems)
    ensures preview == "" <==> !value.PArray? || value.entries == []
    ensures preview != "" ==> preview[0] == '{' && preview[|preview| - 1] == '}'
  {
    if !value.PArray? || value.entries == [] {
      return "";
    }
    var items := CollectPreviewItems(value.entries, maxItems);
    preview := "{" + Implode(", ", items) + "}";
  }

  /** ahjah_object_preview */
  method ObjectPreview(value: PhpValue, maxProps: int) returns (preview: string)
    ensures preview == ObjectPreviewText(value, maxProps)
    ensures preview == "" <==> !value.PObject?
    ensures preview != "" ==> preview[0] == '{' && preview[|preview| - 1] == '}'
  {
    if !value.PObject? {
      return "";
    }
    var items := CollectPreviewItems(value.props, maxProps);
    preview := "{" + Implode(", ", items) + "}";
  }

  // ---------------------------------------------------------------------
  // ahjah_format_serialized_data and ahjah_format_json_data

  /** The parts of a summary span:
      <span class="FAMILY" data-type="TYPE"[ data-count="N"]><span class="ahjah-data-type">TYPE-LABEL</span>
      <span class="ahjah-data-preview">PREVIEW</span></span> */
  datatype Summary = Summary(family: string, dataType: string, count: Option<nat>, typeLabel: string, preview: string)

  function Render(m: Summary): string {
    "<span class=\"" + m.family + "\" data-type=\"" + m.dataType + "\""
    + (if m.count.Some? then " data-count=\"" + NatToString(m.count.value) + "\"" else "") + ">"
    + "<span class=\"ahjah-data-type\">" + m.typeLabel + "</span> "
    + "<span class=\"ahjah-data-preview\">" + m.preview + "</span>"
    + "</span>"
  }

  /** ahjah_format_serialized_data */
  function SerializedSummary(data: PhpValue, o: Oracles): (m: Summary)
    ensures m.family == "ahjah-serialized-data"
    ensures m.dataType == "array" <==> data.PArray?
    ensures m.dataType == "object" <==> data.PObject?
    ensures m.dataType == "primitive" <==> !data.PArray? && !data.PObject?
    ensures m.count.Some? <==> data.PArray?
    ensures data.PArray? ==> m.count.value == |data.entries|
    ensures data.PArray? ==> m.typeLabel == "[Array: " + NatToString(|data.entries|) + " items]"
    ensures data.PArray? ==>
      m.preview == o.escHtml(if data.entries == [] then "(empty array)" else ArrayPreviewText(data, 3))
    ensures data.PObject? ==> m.typeLabel == "[Object: " + o.escHtml(data.className) + "]"
    ensures data.PObject? ==> m.preview == "(" + NatToString(|data.props|) + " properties)"
    ensures !data.PArray? && !data.PObject? ==> m.typeLabel == "[Serialized]" && m.preview == o.escHtml(o.printR(data))
  {
    match data
    case PArray(entries) =>
      var count := |entries|;
      var preview := if count > 0 then ArrayPreviewText(data, 3) else "(empty array)";
      Summary("ahjah-serialized-data", "array", Some(count),
              "[Array: " + NatToString(count) + " items]", o.escHtml(preview))
    case PObject(className, props) =>
      Summary("ahjah-serialized-data", "object", None,
              "[Object: " + o.escHtml(className) + "]", "(" + NatToString(|props|) + " properties)")
    case _ =>
      Summary("ahjah-serialized-data", "primitive", None, "[Serialized]", o.escHtml(o.printR(data)))
  }

  /** ahjah_format_json_data */
  function JsonSummary(data: PhpValue, o: Oracles): (m: Summary)
    ensures m.family == "ahjah-json-data"
    ensures m.dataType == "array" <==> data.PArray?
    ensures m.dataType == "object" <==> data.PObject?
    ensures m.dataType == "primitive" <==> !data.PArray? && !data.PObject?
    ensures m.count.Some? <==> data.PArray? || data.PObject?
    ensures data.PArray? ==> m.count.value == |data.entries|
    ensures data.PObject? ==> m.count.value == |data.props|
    ensures data.PArray? ==> m.typeLabel == "[JSON Array: " + NatToString(|data.entries|) + " items]"
    ensures data.PArray? ==>
      m.preview == o.escHtml(if data.entries == [] then "(empty array)" else ArrayPreviewText(data, 3))
    ensures data.PObject? ==> m.typeLabel == "[JSON Object: " + NatToString(|data.props|) + " properties]"
    ensures data.PObject? ==>
      m.preview == o.escHtml(if data.props == [] then "(empty object)" else ObjectPreviewText(data, 3))
    ensures !data.PArray? && !data.PObject? ==> m.typeLabel == "[JSON]" && m.preview == o.escHtml(o.jsonEncode(data))
  {
    match data
    case PArray(entries) =>
      var count := |entries|;
      var preview := if count > 0 then ArrayPreviewText(data, 3) else "(empty array)";
      Summary("ahjah-json-data", "array", Some(count),
              "[JSON Array: " + NatToString(count) + " items]", o.escHtml(preview))
    case PObject(_, props) =>
      var count := |props|;
      var preview := if count > 0 then ObjectPreviewText(data, 3) else "(empty object)";
      Summary("ahjah-json-data", "object", Some(count),
              "[JSON Object: " + NatToString(count) + " properties]", o.escHtml(preview))
    case _ =>
      Summary("ahjah-json-data", "primitive", None, "[JSON]", o.escHtml(o.jsonEncode(data)))
  }

  // ---------------------------------------------------------------------
  // ahjah_format_cell_data

  /** A serialized value is accepted only if unserialize() does not give false. */
  predicate AcceptedSerialized(s: string, o: Oracles) {
    IsSerialized(s) && o.unserialize(s) != PBool(false)
  }

  /** A JSON value is accepted only if the associative decode succeeds too: the
      object-mode decode of the test can succeed where it fails, and the reverse. */
  predicate AcceptedJson(s: string, o: Oracles) {
    IsJson(s, o) && o.jsonDecode(s).Some?
  }

  /** The type ahjah_format_cell_data gives a value (None for SQL NULL): the
      first test that accepts it decides. */
  function Classify(value: Option<string>, o: Oracles): (t: CellType)
    ensures t == Null <==> value.None?
    ensures t == Empty <==> value == Some("")
  {
    match value
    case None => Null
    case Some(s) =>
      if s == "" then Empty
      else if AcceptedSerialized(s, o) then Serialized
      else if AcceptedJson(s, o) then Json
      else if |s| > MaxLength then LongText
      else if BinaryContent(s) then Binary
      else Text
  }

  /** ahjah_format_cell_data: the display built for the type the value is given. */
  function FormatCell(value: Option<string>, o: Oracles): (c: FormattedCell)
    ensures c.raw == value && c.kind == Classify(value, o)
    ensures c.expandable <==> c.kind in {Serialized, Json, LongText}
    ensures c.fullText.Some? <==> c.kind == LongText
    ensures c.kind == Null ==> c.display == "<span class=\"ahjah-null-value\">NULL</span>"
    ensures c.kind == Empty ==> c.display == "<span class=\"ahjah-empty-value\">(empty)</span>"
    ensures c.kind == Serialized ==> c.display == Render(SerializedSummary(o.unserialize(value.value), o))
    ensures c.kind == Json ==>
      o.jsonDecode(value.value).Some? && c.display == Render(JsonSummary(o.jsonDecode(value.value).value, o))
    ensures c.kind == Binary ==>
      c.display == "<span class=\"ahjah-binary-data\">[Binary data: " + NatToString(|value.value|) + " bytes]</span>"
    ensures c.kind == Text ==> c.display == o.escHtml(value.value)
  {
    match Classify(value, o)
    case Null =>
      FormattedCell("<span class=\"ahjah-null-value\">NULL</span>", None, Null, false, None)
    case Empty =>
      FormattedCell("<span class=\"ahjah-empty-value\">(empty)</span>", value, Empty, false, None)
    case Serialized =>
      FormattedCell(Render(SerializedSummary(o.unserialize(value.value), o)), value, Serialized, true, None)
    case Json =>
      FormattedCell(Render(JsonSummary(o.jsonDecode(value.value).value, o)), value, Json, true, None)
    case LongText =>
      var s := value.value;
      FormattedCell(o.escHtml(s[..MaxLength]) + "<span class=\"ahjah-truncated\">...</span>",
                    value, LongText, true, Some(o.escHtml(s)))
    case Binary =>
      FormattedCell("<span class=\"ahjah-binary-data\">[Binary data: " + NatToString(|value.value|) + " bytes]</span>",
                    value, Binary, false, None)
    case Text =>
      FormattedCell(o.escHtml(value.value), value, Text, false, None)
  }

  /** The position of each test in the chain. */
  function Rank(t: CellType): nat {
    match t
    case Null => 0
    case Empty => 1
    case Serialized => 2
    case Json => 3
    case LongText => 4
    case Binary => 5
    case Text => 6
  }

  /** Whether the test for one type accepts a value, on its own. */
  predicate Accepts(t: CellType, value: Option<string>, o: Oracles) {
    match t
    case Null => value.None?
    case Empty => value == Some("")
    case Serialized => value.Some? && AcceptedSerialized(value.value, o)
    case Json => value.Some? && AcceptedJson(value.value, o)
    case LongText => value.Some? && |value.value| > MaxLength
    case Binary => value.Some? && BinaryContent(value.value)
    case Text => true
  }

  /** The test of the type a value is given accepts it, and every earlier test rejects it. */
  lemma ChosenIsFirst(value: Option<string>, o: Oracles)
    ensures var k := Classify(value, o);
      Accepts(k, value, o) && forall u: CellType :: Rank(u) < Rank(k) ==> !Accepts(u, value, o)
  {
    var k := Classify(value, o);
    forall u: CellType | Rank(u) < Rank(k)
      ensures !Accepts(u, value, o)
    {
      match u
      case Null =>
      case Empty =>
      case Serialized =>
      case Json =>
      case LongText =>
      case Binary =>
      case Text =>
    }
  }

  /** The type given to a value is the first in the order null, empty,
      serialized, json, long_text, binary, text whose test accepts it. */
  lemma FirstMatch(value: Option<string>, o: Oracles, t: CellType)
    ensures Classify(value, o) == t <==>
      Accepts(t, value, o) && forall u: CellType :: Rank(u) < Rank(t) ==> !Accepts(u, value, o)
  {
    var k := Classify(value, o);
    ChosenIsFirst(value, o);
    if Accepts(t, value, o) && forall u: CellType :: Rank(u) < Rank(t) ==> !Accepts(u, value, o) {
      assert !(Rank(t) < Rank(k));
      assert !(Rank(k) < Rank(t));
    }
  }

  /** Binary detection only sees short values: a binary string longer than
      100 bytes is shown as long text. */
  lemma BinaryOnlyWhenShort(s: string, o: Oracles)
    ensures Classify(Some(s), o) == Binary ==> |s| <= MaxLength && BinaryContent(s)
    ensures |s| > MaxLength && !AcceptedSerialized(s, o) && !AcceptedJson(s, o) ==> Classify(Some(s), o) == LongText
  {
  }

  /** A long value is displayed as its first 100 bytes escaped plus an
      ellipsis marker, and its whole text is kept escaped for expansion. */
  lemma LongTextDisplay(s: string, o: Oracles)
    requires Classify(Some(s), o) == LongText
    ensures |s| > MaxLength
    ensures FormatCell(Some(s), o).display == o.escHtml(s[..MaxLength]) + "<span class=\"ahjah-truncated\">...</span>"
    ensures FormatCell(Some(s), o).fullText == Some(o.escHtml(s))
    ensures FormatCell(Some(s), o).expandable
  {
  }

  /** A serialized non-empty array is shown with its element count and a
      preview of at most three entries, followed by "..." when it has more. */
  lemma SerializedArrayDisplay(s: string, o: Oracles)
    ensures var data := o.unserialize(s);
      Classify(Some(s), o) == Serialized && data.PArray? && data.entries != [] ==>
        var items := PreviewItems(data.entries, 3);
        && FormatCell(Some(s), o).display ==
             Render(Summary("ahjah-serialized-data", "array", Some(|data.entries|),
                            "[Array: " + NatToString(|data.entries|) + " items]",
                            o.escHtml("{" + Implode(", ", items) + "}")))
        && |items| == (if |data.entries| <= 3 then |data.entries| else 4)
        && ("..." in items <==> |data.entries| > 3)
  {
    if o.unserialize(s).PArray? {
      PreviewOfThree(o.unserialize(s).entries);
    }
  }

  /** A value whose unserialize() result is false falls through to the later tests. */
  lemma FalseUnserializeFallsThrough(s: string, o: Oracles)
    requires o.unserialize(s) == PBool(false)
    ensures Classify(Some(s), o) != Serialized
  {
  }

  /** "b:0;" carries no blank to trim and has the serialized-boolean form. */
  lemma FalseTextSignature()
    ensures Trim("b:0;") != [] && Trim("b:0;")[0] == 'b'
    ensures IsSerialized("b:0;")
  {
    TrimFirst("b:0;", 0);
    assert BoolSignature("b:0;");
  }

  lemma FalseTextPrintable()
    ensures !BinaryContent("b:0;")
  {
    NoControlByteNoCount("b:0;");
  }

  /** A non-empty value no earlier test accepts, short and printable, is text. */
  lemma FallsToText(s: string, o: Oracles)
    requires s != [] && !AcceptedSerialized(s, o) && !AcceptedJson(s, o)
    requires |s| <= MaxLength && !BinaryContent(s)
    ensures Classify(Some(s), o) == Text
  {
  }

  /** "b:0;" carries a serialized signature, but unserializes to false and is shown as text. */
  lemma SerializedFalseIsText(o: Oracles)
    requires o.unserialize("b:0;") == PBool(false)
    ensures IsSerialized("b:0;")
    ensures Classify(Some("b:0;"), o) == Text
  {
    FalseTextSignature();
    FalseTextPrintable();
    FallsToText("b:0;", o);
  }
}
