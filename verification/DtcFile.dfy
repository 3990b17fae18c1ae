/** The files the trouble-code importer reads: a JSON map, a JSON array of objects, or
    delimited lines. */
module DtcFile {
  import opened Wrappers
  import opened Seqs
  import opened Numerals
  import opened DtcText
  import opened DtcImport
  import opened DtcDb
  import opened DtcStore
  import opened JsonScan

  const KEY_CAP: nat := 32
  const VAL_CAP: nat := 127

  // ---- one key and its value -----------------------------------------------------------

  /** White space and a comma behind a pair or an element. */
  function Comma(s: string, p: nat): (q: nat)
    requires p <= |s|
    ensures p <= q <= |s| && (q < |s| ==> !IsBlank(s[q]))
    ensures p < |s| && s[p] == ',' ==> p < q
  {
    var q := Ws(s, p);
    if q < |s| && s[q] == ',' then Ws(s, q + 1) else q
  }

  /** A key, and the text of its value when that is a string. */
  datatype Pair = Pair(next: nat, key: string, val: Option<string>)

  function PairAt(s: string, p: nat): (r: Option<Pair>)
    requires p <= |s|
    ensures r.Some? ==> p < r.value.next <= |s| && (r.value.next < |s| ==> !IsBlank(s[r.value.next]))
    ensures r.Some? && r.value.val.Some? ==> |r.value.val.value| < r.value.next - p
  {
    match Str(s, p, KEY_CAP)
    case None => None
    case Some((k, key)) =>
      var colon := Ws(s, k);
      if colon >= |s| || s[colon] != ':' then None
      else
        var v := Ws(s, colon + 1);
        if v < |s| && s[v] == '"' then
          match Str(s, v, VAL_CAP)
          case None => None
          case Some((n, val)) => Some(Pair(Comma(s, n), key, Some(val)))
        else
          match Skip(s, v)
          case None => None
          case Some(n) => Some(Pair(Comma(s, n), key, None))
  }

  method ReadComma(s: string, p: nat) returns (q: nat)
    requires p <= |s|
    ensures q == Comma(s, p)
  {
    q := JsonWs(s, p);
    if q < |s| && s[q] == ',' {
      q := JsonWs(s, q + 1);
    }
  }

  method ReadPair(s: string, p: nat) returns (r: Option<Pair>)
    requires p <= |s|
    ensures r == PairAt(s, p)
  {
    hide Str, Ws, Skip, Comma;
    var key := JsonString(s, p, KEY_CAP);
    if key.None? {
      return None;
    }
    var q := JsonWs(s, key.value.0);
    if q >= |s| || s[q] != ':' {
      return None;
    }
    q := JsonWs(s, q + 1);
    if q < |s| && s[q] == '"' {
      var val := JsonString(s, q, VAL_CAP);
      if val.None? {
        return None;
      }
      q := ReadComma(s, val.value.0);
      r := Some(Pair(q, key.value.1, Some(val.value.1)));
    } else {
      var end := JsonSkip(s, q);
      if end.None? {
        return None;
      }
      q := ReadComma(s, end.value);
      r := Some(Pair(q, key.value.1, None));
    }
  }

  // ---- a map of codes --------------------------------------------------------------------

  function EntryOf(p: Pair): seq<Entry> {
    match p.val
    case Some(val) => [Entry(p.key, val)]
    case None => []
  }

  lemma {:induction false} DescJoin(a: seq<Entry>, b: seq<Entry>)
    ensures DescTotal(a + b) == DescTotal(a) + DescTotal(b)
  {
    if b == [] {
      assert a + b == a;
    } else {
      SnocParts(a, b);
      SnocInit(a + Init(b), Last(b));
      DescJoin(a, Init(b));
    }
  }

  lemma DescOne(e: Entry)
    ensures DescTotal([e]) == |e.desc| && DescTotal([]) == 0
  {
    SnocInit([], e);
    assert [] + [e] == [e];
  }

  lemma DescOfPair(p: Pair)
    ensures DescTotal(EntryOf(p)) == if p.val.Some? then |p.val.value| else 0
  {
    if p.val.Some? {
      DescOne(Entry(p.key, p.val.value));
    }
  }

  /** The pairs of an object from p to its closing brace. */
  function MapFrom(s: string, p: nat): (r: Option<seq<Entry>>)
    requires p <= |s|
    ensures r.Some? ==> DescTotal(r.value) <= |s| - p
    decreases |s| - p
  {
    if p >= |s| then None
    else if s[p] == '}' then Some([])
    else
      match PairAt(s, p)
      case None => None
      case Some(pair) =>
        match MapFrom(s, pair.next)
        case None => None
        case Some(es) =>
          DescJoin(EntryOf(pair), es);
          DescOfPair(pair);
          Some(EntryOf(pair) + es)
  }

  function MapOfFile(s: string): (r: Option<seq<Entry>>)
    ensures r.Some? ==> DescTotal(r.value) <= |s|
  {
    var p := Ws(s, 0);
    if p >= |s| || s[p] != '{' then None else MapFrom(s, Ws(s, p + 1))
  }

  method ParseMap(s: string) returns (r: Option<seq<Entry>>)
    ensures r == MapOfFile(s)
  {
    hide Str, PairAt, DescTotal, Ws;
    var p := JsonWs(s, 0);
    if p >= |s| || s[p] != '{' {
      return None;
    }
    p := JsonWs(s, p + 1);
    ghost var start := p;
    var es: seq<Entry> := [];
    OntoNothing(MapFrom(s, p));
    while p < |s| && s[p] != '}'
      invariant p <= |s|
      invariant MapFrom(s, start) == Onto(es, MapFrom(s, p))
      decreases |s| - p
    {
      var pair := ReadPair(s, p);
      if pair.None? {
        return None;
      }
      OntoMore(es, EntryOf(pair.value), MapFrom(s, pair.value.next));
      es := es + EntryOf(pair.value);
      p := pair.value.next;
    }
    if p >= |s| {
      return None;
    }
    assert es + [] == es;
    r := Some(es);
  }

  /** Entries in front of the rest, when there is one. */
  function Onto(es: seq<Entry>, rest: Option<seq<Entry>>): Option<seq<Entry>> {
    match rest
    case None => None
    case Some(more) => Some(es + more)
  }

  lemma OntoNothing(rest: Option<seq<Entry>>)
    ensures Onto([], rest) == rest
  {
    if rest.Some? {
      assert [] + rest.value == rest.value;
    }
  }

  lemma OntoMore(a: seq<Entry>, b: seq<Entry>, rest: Option<seq<Entry>>)
    ensures Onto(a, Onto(b, rest)) == Onto(a + b, rest)
  {
    if rest.Some? {
      Assoc(a, b, rest.value);
    }
  }

  // ---- an array of objects -----------------------------------------------------------------

  /** A C string ends at its first NUL. */
  function CStr(s: string): string {
    if s == "" || s[0] == '\0' then "" else [s[0]] + CStr(s[1..])
  }

  function LowerAll(s: string): string {
    if s == "" then "" else [Lower(s[0])] + LowerAll(s[1..])
  }

  predicate KeyIs(key: string, names: set<string>) {
    LowerAll(CStr(key)) in names
  }

  const CODE_KEYS := {"code", "dtc", "id"}
  const DESC_KEYS := {"description", "desc", "text", "meaning", "title"}

  function Cut(s: string, cap: nat): (r: string)
    requires cap > 0
    ensures |r| <= |s|
  {
    if |s| < cap then s else s[..cap - 1]
  }

  /** The fields of one object so far. */
  datatype Fields = Fields(code: string, desc: string)

  function TakeField(f: Fields, p: Pair): (r: Fields)
    ensures |r.desc| <= |f.desc| || (p.val.Some? && |r.desc| <= |p.val.value|)
  {
    match p.val
    case None => f
    case Some(val) =>
      if KeyIs(p.key, CODE_KEYS) then f.(code := Cut(val, KEY_CAP))
      else if KeyIs(p.key, DESC_KEYS) then f.(desc := Cut(val, VAL_CAP))
      else f
  }

  /** The pairs of an object from p to behind its closing brace. */
  function ObjectFrom(s: string, p: nat, f: Fields): (r: Option<(nat, Fields)>)
    requires p <= |s|
    ensures r.Some? ==> p < r.value.0 <= |s| && |r.value.1.desc| <= |f.desc| + (r.value.0 - p)
    decreases |s| - p
  {
    if p >= |s| then None
    else if s[p] == '}' then Some((p + 1, f))
    else
      match PairAt(s, p)
      case None => None
      case Some(pair) => ObjectFrom(s, pair.next, TakeField(f, pair))
  }

  function EntryFrom(f: Fields): seq<Entry> {
    if f.code != "" then [Entry(f.code, f.desc)] else []
  }

  /** An element of the array, and what it says. */
  function ElementAt(s: string, p: nat): (r: Option<(nat, seq<Entry>)>)
    requires p < |s| && !IsBlank(s[p])
    ensures r.Some? ==> p < r.value.0 <= |s| && DescTotal(r.value.1) <= r.value.0 - p
    ensures r.Some? && r.value.0 < |s| ==> !IsBlank(s[r.value.0])
  {
    if s[p] != '{' then
      match Skip(s, p)
      case None => None
      case Some(n) => Some((Comma(s, n), []))
    else
      match ObjectFrom(s, Ws(s, p + 1), Fields("", ""))
      case None => None
      case Some((n, f)) =>
        DescOne(Entry(f.code, f.desc));
        Some((Comma(s, n), EntryFrom(f)))
  }

  function ArrayFrom(s: string, p: nat): (r: Option<seq<Entry>>)
    requires p <= |s| && (p < |s| ==> !IsBlank(s[p]))
    ensures r.Some? ==> DescTotal(r.value) <= |s| - p
    decreases |s| - p
  {
    if p >= |s| then None
    else if s[p] == ']' then Some([])
    else
      match ElementAt(s, p)
      case None => None
      case Some((n, here)) =>
        match ArrayFrom(s, n)
        case None => None
        case Some(es) =>
          DescJoin(here, es);
          Some(here + es)
  }

  function ArrayOfFile(s: string): (r: Option<seq<Entry>>)
    ensures r.Some? ==> DescTotal(r.value) <= |s|
  {
    var p := Ws(s, 0);
    if p >= |s| || s[p] != '[' then None else ArrayFrom(s, Ws(s, p + 1))
  }

  method ReadObject(s: string, p: nat) returns (r: Option<(nat, Fields)>)
    requires p <= |s|
    ensures r == ObjectFrom(s, p, Fields("", ""))
  {
    hide PairAt;
    var q, f := p, Fields("", "");
    while q < |s| && s[q] != '}'
      invariant q <= |s| && ObjectFrom(s, q, f) == ObjectFrom(s, p, Fields("", ""))
      decreases |s| - q
    {
      var pair := ReadPair(s, q);
      if pair.None? {
        return None;
      }
      f := TakeField(f, pair.value);
      q := pair.value.next;
    }
    if q >= |s| {
      return None;
    }
    r := Some((q + 1, f));
  }

  method ReadElement(s: string, p: nat) returns (r: Option<(nat, seq<Entry>)>)
    requires p < |s| && !IsBlank(s[p])
    ensures r == ElementAt(s, p)
  {
    if s[p] != '{' {
      var n := JsonSkip(s, p);
      if n.None? {
        return None;
      }
      var q := ReadComma(s, n.value);
      r := Some((q, []));
    } else {
      var q := JsonWs(s, p + 1);
      var obj := ReadObject(s, q);
      if obj.None? {
        return None;
      }
      q := ReadComma(s, obj.value.0);
      r := Some((q, EntryFrom(obj.value.1)));
    }
  }

  method ParseArray(s: string) returns (r: Option<seq<Entry>>)
    ensures r == ArrayOfFile(s)
  {
    hide ElementAt, DescTotal;
    var p := JsonWs(s, 0);
    if p >= |s| || s[p] != '[' {
      return None;
    }
    p := JsonWs(s, p + 1);
    ghost var start := p;
    var es: seq<Entry> := [];
    OntoNothing(ArrayFrom(s, p));
    while p < |s| && s[p] != ']'
      invariant p <= |s| && (p < |s| ==> !IsBlank(s[p]))
      invariant ArrayFrom(s, start) == Onto(es, ArrayFrom(s, p))
      decreases |s| - p
    {
      var element := ReadElement(s, p);
      if element.None? {
        return None;
      }
      OntoMore(es, element.value.1, ArrayFrom(s, element.value.0));
      es := es + element.value.1;
      p := element.value.0;
    }
    if p >= |s| {
      return None;
    }
    assert es + [] == es;
    r := Some(es);
  }

  // ---- delimited lines -----------------------------------------------------------------------

  predicate IsTrim(c: char) {
    c == ' ' || c == '\r'
  }

  function TrimFront(s: string): (r: string)
    ensures |r| <= |s|
  {
    if s != "" && IsTrim(s[0]) then TrimFront(s[1..]) else s
  }

  function TrimBack(s: string): (r: string)
    ensures |r| <= |s|
  {
    if s != "" && IsTrim(Last(s)) then TrimBack(Init(s)) else s
  }

  /** The content of a quoted field from i on: doubled quotes are one. */
  function Unquote(f: string, i: nat, out: string, cap: nat): (r: string)
    ensures |r| <= |out| + (if i < |f| then |f| - i else 0)
    decreases |f| - i
  {
    if i + 1 >= |f| || |out| + 1 >= cap then out
    else
      var k := if f[i] == '"' && f[i + 1] == '"' then i + 1 else i;
      Unquote(f, k + 1, out + [f[k]], cap)
  }

  function Field(f: string, cap: nat): (r: string)
    ensures |r| <= |f|
  {
    var t := TrimBack(TrimFront(f));
    if |t| >= 2 && t[0] == '"' && Last(t) == '"' then Unquote(t, 1, "", cap) else t
  }

  /** The first delimiter outside quotes, at or behind i. */
  function Delimiter(line: string, i: nat, quoted: bool): (k: nat)
    requires i <= |line|
    ensures i <= k <= |line|
    decreases |line| - i
  {
    if i == |line| then i
    else if line[i] == '"' then Delimiter(line, i + 1, !quoted)
    else if !quoted && (line[i] == '\t' || line[i] == ';' || line[i] == ',') then i
    else Delimiter(line, i + 1, quoted)
  }

  function Space(line: string, i: nat): (k: nat)
    requires i <= |line|
    ensures i <= k <= |line|
    decreases |line| - i
  {
    if i == |line| || line[i] == ' ' then i else Space(line, i + 1)
  }

  function SpacesOff(s: string): (r: string)
    ensures |r| <= |s|
  {
    if s != "" && s[0] == ' ' then SpacesOff(s[1..]) else s
  }

  const CODE_CAP: nat := 40
  const DESC_CAP: nat := 103

  /** One line: its entry, unless it is blank or a comment. */
  function LineEntry(text: string): (r: seq<Entry>)
    ensures DescTotal(r) <= |text|
  {
    var line := TrimFront(text);
    if line == "" || line[0] == '#' then []
    else
      var k := Delimiter(line, 0, false);
      var split := if k < |line| then k else Space(line, 0);
      var e :=
        if split == |line| then Entry(Field(line, CODE_CAP), "")
        else
          var rest := line[split + 1..];
          Entry(Field(line[..split], CODE_CAP), Field(if k < |line| then rest else SpacesOff(rest), DESC_CAP));
      DescOne(e);
      [e]
  }

  function TextFrom(s: string, p: nat): (es: seq<Entry>)
    ensures p <= |s| ==> DescTotal(es) <= |s| - p
    ensures p > |s| ==> es == []
    decreases |s| - p
  {
    if p >= |s| then []
    else
      var e := Eol(s, p);
      DescJoin(LineEntry(s[p..e]), TextFrom(s, e + 1));
      LineEntry(s[p..e]) + TextFrom(s, e + 1)
  }

  method ReadField(f: string, cap: nat) returns (r: string)
    ensures r == Field(f, cap)
  {
    hide Unquote;
    var t := f;
    while t != "" && IsTrim(t[0])
      invariant TrimFront(t) == TrimFront(f)
      decreases |t|
    {
      t := t[1..];
    }
    ghost var front := t;
    while t != "" && IsTrim(t[|t| - 1])
      invariant TrimBack(t) == TrimBack(front)
      decreases |t|
    {
      t := t[..|t| - 1];
    }
    if |t| >= 2 && t[0] == '"' && t[|t| - 1] == '"' {
      r := ReadQuoted(t, cap);
    } else {
      r := t;
    }
  }

  method ReadQuoted(t: string, cap: nat) returns (r: string)
    ensures r == Unquote(t, 1, "", cap)
  {
    r := "";
    var i := 1;
    while i + 1 < |t| && |r| + 1 < cap
      invariant Unquote(t, i, r, cap) == Unquote(t, 1, "", cap)
    {
      if t[i] == '"' && t[i + 1] == '"' {
        i := i + 1;
      }
      r := r + [t[i]];
      i := i + 1;
    }
  }

  method ReadSplit(line: string) returns (split: nat, spaced: bool)
    ensures var k := Delimiter(line, 0, false);
      split == (if k < |line| then k else Space(line, 0)) && spaced == (k == |line|)
  {
    var quoted := false;
    split := 0;
    while split < |line|
      invariant split <= |line| && Delimiter(line, split, quoted) == Delimiter(line, 0, false)
    {
      if line[split] == '"' {
        quoted := !quoted;
      } else if !quoted && (line[split] == '\t' || line[split] == ';' || line[split] == ',') {
        return split, false;
      }
      split := split + 1;
    }
    split := 0;
    spaced := true;
    while split < |line| && line[split] != ' '
      invariant split <= |line| && Space(line, split) == Space(line, 0)
    {
      split := split + 1;
    }
  }

  method ParseLine(text: string) returns (r: seq<Entry>)
    ensures r == LineEntry(text)
  {
    hide Field, Delimiter, Space;
    var line := text;
    while line != "" && IsTrim(line[0])
      invariant TrimFront(line) == TrimFront(text)
      decreases |line|
    {
      line := line[1..];
    }
    if line == "" || line[0] == '#' {
      return [];
    }
    var split, spaced := ReadSplit(line);
    if split == |line| {
      var code := ReadField(line, CODE_CAP);
      return [Entry(code, "")];
    }
    var code := ReadField(line[..split], CODE_CAP);
    var rest := line[split + 1..];
    ghost var all := rest;
    if spaced {
      while rest != "" && rest[0] == ' '
        invariant SpacesOff(rest) == SpacesOff(all)
        decreases |rest|
      {
        rest := rest[1..];
      }
    }
    var desc := ReadField(rest, DESC_CAP);
    r := [Entry(code, desc)];
  }

  method ParseText(s: string) returns (es: seq<Entry>)
    ensures es == TextFrom(s, 0)
  {
    hide LineEntry, DescTotal, Eol;
    es := [];
    var line := 0;
    assert [] + TextFrom(s, 0) == TextFrom(s, 0);
    while line < |s|
      invariant es + TextFrom(s, line) == TextFrom(s, 0)
      decreases |s| - line
    {
      var eol := LineEnd(s, line);
      var here := ParseLine(s[line..eol]);
      Assoc(es, here, TextFrom(s, eol + 1));
      es := es + here;
      line := eol + 1;
    }
    assert es + [] == es;
  }

  // ---- a file -----------------------------------------------------------------------------------

  /** What a file says: by its first character a map, an array or lines; none when it
      is empty or malformed. */
  function FileEntries(s: string): (r: Option<seq<Entry>>)
    ensures r.Some? ==> DescTotal(r.value) <= |s|
  {
    var p := Ws(s, 0);
    if s == "" then None
    else if p < |s| && s[p] == '{' then MapOfFile(s)
    else if p < |s| && s[p] == '[' then ArrayOfFile(s)
    else Some(TextFrom(s, 0))
  }

  method ParseFile(s: string) returns (r: Option<seq<Entry>>)
    ensures r == FileEntries(s)
  {
    hide MapOfFile, ArrayOfFile, TextFrom;
    if s == "" {
      return None;
    }
    var p := JsonWs(s, 0);
    if p < |s| && s[p] == '{' {
      r := ParseMap(s);
    } else if p < |s| && s[p] == '[' {
      r := ParseArray(s);
    } else {
      var es := ParseText(s);
      r := Some(es);
    }
  }

  /** What is kept of a file: the last valid occurrence of each code, as far as the
      limits go; nothing of a malformed one. */
  function Meaning(s: string): map<string, string> {
    match FileEntries(s)
    case Some(es) => MapOf(Fitting(es, ENTRIES_MAX, |s| + DESC_MAX + 16))
    case None => map[]
  }

  /** Within the limit of entries that is all of it. */
  lemma MeaningIsNaive(s: string)
    requires FileEntries(s).Some? && |FileEntries(s).value| <= ENTRIES_MAX
    ensures Meaning(s) == Naive(FileEntries(s).value)
  {
    hide FileEntries;
    EveryEntryCounts(FileEntries(s).value, |s|);
  }

  /** Any bytes, imported and stored: the text is written unless nothing valid was
      found, is no longer than a stored file may be, and indexed again answers every
      code as the file does. */
  method StoreFile(s: string) returns (text: Option<string>)
    ensures text.None? <==> Meaning(s) == map[]
    ensures text.Some? ==>
      && IndexOf(text.value, ENTRIES_MAX).Some? && |text.value| <= |s| + ENTRIES_MAX * 8
      && AnswersAs(text.value, IndexOf(text.value, ENTRIES_MAX).value, Meaning(s))
  {
    hide FileEntries, IndexOf, AnswersAs, Fitting, MapOf;
    var es := ParseFile(s);
    if es.None? {
      return None;
    }
    text := Store(es.value, |s|);
    MapOfEmpty(Fitting(es.value, ENTRIES_MAX, |s| + DESC_MAX + 16));
  }

  lemma MapOfEmpty(rows: seq<Row>)
    ensures rows == [] <==> MapOf(rows) == map[]
  {
    if rows != [] {
      MapOfAbsent(rows, Last(rows).code);
    }
  }
}
