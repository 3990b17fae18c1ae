/** Files written for the trouble-code importer are read back: a JSON map, a JSON array
    of objects, quoted lines. */
module DtcWritten {
  import opened Wrappers
  import opened Seqs
  import opened Numerals
  import opened DtcImport
  import opened DtcDb
  import opened JsonScan
  import opened DtcFile

  // ---- strings and members -----------------------------------------------------------------

  /** A string's characters with quotes and backslashes escaped. */
  function Escape(s: string): string {
    if s == "" then ""
    else (if s[0] == '"' || s[0] == '\\' then ['\\', s[0]] else [s[0]]) + Escape(s[1..])
  }

  function Quoted(s: string): string {
    "\"" + (Escape(s) + "\"")
  }

  /** What stands in front of the other members, or of the brace. */
  function Sep(n: nat): string {
    if n > 1 then "," else ""
  }

  /** The members of an object, its brace, and what is behind it. */
  function Members(es: seq<Entry>, rest: string): string {
    if es == [] then "}" + rest
    else Quoted(es[0].code) + (":" + (Quoted(es[0].desc) + (Sep(|es|) + Members(es[1..], rest))))
  }

  lemma {:induction false} BodyOfEscape(front: string, t: string, rest: string, out: string, cap: nat)
    requires |out| + |t| < cap
    ensures Body(front + (Escape(t) + ("\"" + rest)), |front|, out, cap)
            == Some((|front| + |Escape(t)| + 1, out + t))
    decreases t
  {
    hide CharAt, Body, Escape;
    var s, p := front + (Escape(t) + ("\"" + rest)), |front|;
    NothingEscaped();
    if t == "" {
      BodyEnds(front, rest, out, cap);
      assert out + t == out;
    } else {
      var next := EscapeHead(front, t, "\"" + rest);
      assert next <= s;
      EscapedChar(s, front, next[p..], t[0]);
      BodyStep(s, p, out, cap);
      BodyOfEscape(next, t[1..], rest, out + [t[0]], cap);
      assert (out + [t[0]]) + t[1..] == out + t;
    }
  }

  lemma NothingEscaped()
    ensures Escape("") == "" && forall rest: string :: "" + rest == rest
  {
  }

  lemma BodyEnds(front: string, rest: string, out: string, cap: nat)
    ensures Body(front + ("" + ("\"" + rest)), |front|, out, cap) == Some((|front| + 1, out))
  {
    var s := front + ("" + ("\"" + rest));
    assert s[|front|] == '"';
  }

  lemma BodyStep(s: string, p: nat, out: string, cap: nat)
    requires p < |s| && s[p] != '"' && |out| + 1 < cap
    ensures Body(s, p, out, cap) == Body(s, CharAt(s, p).1 + 1, out + [CharAt(s, p).0], cap)
  {
    hide CharAt;
  }

  /** A character as it is written, and the text behind it. */
  lemma EscapeHead(front: string, t: string, rest: string) returns (next: string)
    requires t != ""
    ensures next == front + if t[0] == '"' || t[0] == '\\' then ['\\', t[0]] else [t[0]]
    ensures front + (Escape(t) + rest) == next + (Escape(t[1..]) + rest)
    ensures |Escape(t)| == |next| - |front| + |Escape(t[1..])|
  {
    var e := if t[0] == '"' || t[0] == '\\' then ['\\', t[0]] else [t[0]];
    Assoc(front, e, Escape(t[1..]) + rest);
    Assoc(e, Escape(t[1..]), rest);
    next := front + e;
  }

  lemma EscapedChar(s: string, front: string, e: string, c: char)
    requires e == (if c == '"' || c == '\\' then ['\\', c] else [c]) && front + e <= s
    ensures s[|front|] != '"' && CharAt(s, |front|) == (c, |front| + |e| - 1)
  {
    assert forall i :: 0 <= i < |e| ==> s[|front| + i] == (front + e)[|front| + i] == e[i];
  }

  lemma StrOfQuoted(front: string, t: string, rest: string, cap: nat)
    requires |t| < cap
    ensures Str(front + (Quoted(t) + rest), |front|, cap) == Some((|front| + |Quoted(t)|, t))
  {
    var s := front + (Quoted(t) + rest);
    Assoc("\"", Escape(t) + "\"", rest);
    Assoc(Escape(t), "\"", rest);
    Assoc(front, "\"", Escape(t) + ("\"" + rest));
    BodyOfEscape(front + "\"", t, rest, "", cap);
    assert "" + t == t && s[|front|] == '"';
  }

  lemma WsHere(s: string, p: nat)
    requires p < |s| && !IsBlank(s[p])
    ensures Ws(s, p) == p
  {
  }

  predicate Fits(e: Entry) {
    |e.code| < KEY_CAP && |e.desc| < VAL_CAP
  }

  lemma {:induction false} MembersAreRead(front: string, es: seq<Entry>, rest: string)
    requires forall e <- es :: Fits(e)
    ensures MapFrom(front + Members(es, rest), |front|) == Some(es)
    decreases es
  {
    hide Members, PairAt, Comma;
    var s, p := front + Members(es, rest), |front|;
    MembersStart(es, rest);
    assert s[p] == Members(es, rest)[0];
    if es == [] {
      NoMembers(rest);
    } else {
      var next := FirstMember(front, es, rest);
      assert forall x <- es[1..] :: x in es;
      MembersAreRead(next, es[1..], rest);
      assert es == [es[0]] + es[1..];
    }
  }

  lemma NoMembers(rest: string)
    ensures Members([], rest) == "}" + rest
  {
  }

  lemma MembersOf(es: seq<Entry>, rest: string)
    requires es != []
    ensures Members(es, rest) ==
      Quoted(es[0].code) + (":" + (Quoted(es[0].desc) + (Sep(|es|) + Members(es[1..], rest))))
  {
  }

  /** The first pair of a written map, and the text before the others. */
  lemma FirstMember(front: string, es: seq<Entry>, rest: string) returns (next: string)
    requires es != [] && Fits(es[0])
    ensures |front| < |next| && front + Members(es, rest) == next + Members(es[1..], rest)
    ensures PairAt(front + Members(es, rest), |front|) == Some(Pair(|next|, es[0].code, Some(es[0].desc)))
  {
    hide Str, Quoted, PairAt, Comma, Members, Sep;
    var e, sep, more := es[0], Sep(|es|), Members(es[1..], rest);
    var s := front + Members(es, rest);
    MembersOf(es, rest);
    PairOfMember(front, e, sep + more);
    var before := ((front + Quoted(e.code)) + ":") + Quoted(e.desc);
    FourParts(front, Quoted(e.code), ":", Quoted(e.desc), sep + more);
    assert s == before + (sep + more);
    Assoc(before, sep, more);
    MembersStart(es[1..], rest);
    NoMembers(rest);
    if |es| == 1 {
      assert es[1..] == [];
    }
    SepIs(|es|);
    CommaHere(s, before, |es| > 1, more);
    next := before + sep;
  }

  lemma FourParts(f: string, a: string, b: string, c: string, t: string)
    ensures f + (a + (b + (c + t))) == (((f + a) + b) + c) + t
  {
    Assoc(f, a, b + (c + t));
    Assoc(f + a, b, c + t);
    Assoc((f + a) + b, c, t);
  }

  lemma QuotedStarts(t: string, rest: string, front: string)
    ensures (front + (Quoted(t) + rest))[|front|] == '"'
  {
  }

  lemma MembersStart(es: seq<Entry>, rest: string)
    ensures Members(es, rest) != "" && (Members(es, rest)[0] == '"' || Members(es, rest)[0] == '}')
    ensures es != [] ==> Members(es, rest)[0] == '"'
  {
    if es != [] {
      assert Quoted(es[0].code)[0] == '"';
    }
  }

  /** A key, its colon and its value, with more behind them. */
  lemma PairOfMember(front: string, e: Entry, tail: string)
    requires Fits(e)
    ensures var s := front + (Quoted(e.code) + (":" + (Quoted(e.desc) + tail)));
      var n := |front| + |Quoted(e.code)| + 1 + |Quoted(e.desc)|;
      n <= |s| && PairAt(s, |front|) == Some(Pair(Comma(s, n), e.code, Some(e.desc)))
  {
    hide Str, Quoted, Comma;
    var s := front + (Quoted(e.code) + (":" + (Quoted(e.desc) + tail)));
    StrOfQuoted(front, e.code, ":" + (Quoted(e.desc) + tail), KEY_CAP);
    var k := |front| + |Quoted(e.code)|;
    Assoc(front, Quoted(e.code), ":" + (Quoted(e.desc) + tail));
    Assoc(front + Quoted(e.code), ":", Quoted(e.desc) + tail);
    assert s[k] == ':';
    WsHere(s, k);
    var before := (front + Quoted(e.code)) + ":";
    StrOfQuoted(before, e.desc, tail, VAL_CAP);
    QuotedStarts(e.desc, tail, before);
    WsHere(s, k + 1);
  }

  lemma SepIs(n: nat)
    requires n > 0
    ensures Sep(n) == Sep(if n > 1 then 2 else 1)
  {
  }

  /** The comma between two members, or none before what closes them. */
  lemma CommaHere(s: string, front: string, more: bool, behind: string)
    requires s == front + (Sep(if more then 2 else 1) + behind)
    requires behind != "" && !IsBlank(behind[0]) && behind[0] != ','
    ensures Comma(s, |front|) == |front| + |Sep(if more then 2 else 1)|
  {
    var n := |front|;
    if more {
      assert s[n] == ',' && s[n + 1] == behind[0];
      WsHere(s, n);
      WsHere(s, n + 1);
    } else {
      assert s[n] == behind[0];
      WsHere(s, n);
    }
  }

  /** A map of codes to descriptions written as JSON is read back, entry by entry, and
      whatever stands behind its brace is left alone. */
  lemma MapRoundTrip(es: seq<Entry>, rest: string)
    requires forall e <- es :: Fits(e)
    ensures FileEntries("{" + Members(es, rest)) == Some(es)
  {
    hide Members, MapFrom;
    var s := "{" + Members(es, rest);
    MembersStart(es, rest);
    assert s[1] == Members(es, rest)[0];
    WsHere(s, 0);
    WsHere(s, 1);
    MembersAreRead("{", es, rest);
  }

  // ---- an array of objects ---------------------------------------------------------------------

  /** The value of the last member with one of the names. */
  function LastValue(pairs: seq<Entry>, names: set<string>): string {
    if pairs == [] then ""
    else if KeyIs(Last(pairs).code, names) then Last(pairs).desc
    else LastValue(Init(pairs), names)
  }

  /** What an object of string members says, in any order, with any others among them. */
  function ObjectSays(pairs: seq<Entry>): seq<Entry> {
    var code := LastValue(pairs, CODE_KEYS);
    if code == "" then [] else [Entry(Cut(code, KEY_CAP), LastValue(pairs, DESC_KEYS))]
  }

  function ArraySays(objs: seq<seq<Entry>>): seq<Entry> {
    if objs == [] then [] else ObjectSays(objs[0]) + ArraySays(objs[1..])
  }

  /** The objects, the bracket, and what is behind it. */
  function Objects(objs: seq<seq<Entry>>, rest: string): string {
    if objs == [] then "]" + rest
    else "{" + Members(objs[0], Sep(|objs|) + Objects(objs[1..], rest))
  }

  function FieldsOf(pairs: seq<Entry>): Fields {
    Fields(Cut(LastValue(pairs, CODE_KEYS), KEY_CAP), Cut(LastValue(pairs, DESC_KEYS), VAL_CAP))
  }

  lemma NamesApart(key: string)
    ensures !(KeyIs(key, CODE_KEYS) && KeyIs(key, DESC_KEYS))
  {
    assert "code"[0] == 'c' && |"dtc"| == 3 && |"id"| == 2;
    assert |"description"| == 11 && "desc"[0] == 'd' && |"desc"| == 4 && "text"[0] == 't' && |"text"| == 4;
    assert |"meaning"| == 7 && |"title"| == 5;
  }

  /** One more member changes the fields as the reader does. */
  lemma FieldsSnoc(pairs: seq<Entry>, e: Entry, n: nat)
    requires Fits(e)
    ensures FieldsOf(pairs + [e]) == TakeField(FieldsOf(pairs), Pair(n, e.code, Some(e.desc)))
  {
    hide KeyIs;
    SnocInit(pairs, e);
    NamesApart(e.code);
  }

  lemma {:induction false} ObjectIsRead(front: string, seen: seq<Entry>, pairs: seq<Entry>, rest: string)
    requires forall e <- pairs :: Fits(e)
    ensures ObjectFrom(front + Members(pairs, rest), |front|, FieldsOf(seen))
      == Some((|front + Members(pairs, rest)| - |rest|, FieldsOf(seen + pairs)))
    decreases pairs
  {
    hide Members, PairAt, FieldsOf, TakeField;
    var s, p := front + Members(pairs, rest), |front|;
    MembersStart(pairs, rest);
    assert s[p] == Members(pairs, rest)[0];
    if pairs == [] {
      NoMembers(rest);
      assert seen + [] == seen;
    } else {
      var next := FirstMember(front, pairs, rest);
      assert forall x <- pairs[1..] :: x in pairs;
      FieldsSnoc(seen, pairs[0], |next|);
      ObjectIsRead(next, seen + [pairs[0]], pairs[1..], rest);
      Assoc(seen, [pairs[0]], pairs[1..]);
      assert pairs == [pairs[0]] + pairs[1..];
    }
  }

  lemma EntryOfFields(pairs: seq<Entry>)
    requires forall e <- pairs :: Fits(e)
    ensures EntryFrom(FieldsOf(pairs)) == ObjectSays(pairs)
  {
    LastFits(pairs, DESC_KEYS);
  }

  lemma {:induction false} LastFits(pairs: seq<Entry>, names: set<string>)
    requires forall e <- pairs :: Fits(e)
    ensures |LastValue(pairs, names)| < VAL_CAP
  {
    if pairs != [] {
      assert Last(pairs) in pairs;
      assert forall e <- Init(pairs) :: e in pairs;
      LastFits(Init(pairs), names);
    }
  }

  lemma ObjectsStart(objs: seq<seq<Entry>>, rest: string)
    ensures Objects(objs, rest) != "" && Objects(objs, rest)[0] == if objs == [] then ']' else '{'
  {
  }

  /** The first object of a written array, and the text before the others. */
  lemma FirstObject(front: string, objs: seq<seq<Entry>>, rest: string) returns (next: string)
    requires objs != [] && forall e <- objs[0] :: Fits(e)
    ensures front + Objects(objs, rest) == next + Objects(objs[1..], rest)
    ensures var s, p := front + Objects(objs, rest), |front|;
      && p < |next| <= |s| && s[p] == '{' && ElementAt(s, p) == Some((|next|, ObjectSays(objs[0])))
  {
    hide Members, ObjectFrom, Comma, Sep, Objects, FieldsOf, ObjectSays;
    var sep, more := Sep(|objs|), Objects(objs[1..], rest);
    ObjectsOf(objs, rest);
    var s, p := front + Objects(objs, rest), |front|;
    var at := front + "{";
    Assoc(front, "{", Members(objs[0], sep + more));
    assert s == at + Members(objs[0], sep + more);
    MembersStart(objs[0], sep + more);
    assert s[p] == '{' && s[p + 1] == Members(objs[0], sep + more)[0];
    WsHere(s, p + 1);
    NoFields();
    ObjectIsRead(at, [], objs[0], sep + more);
    assert [] + objs[0] == objs[0];
    EntryOfFields(objs[0]);
    var members := MembersEnd(objs[0], sep + more);
    Assoc(at, members, sep + more);
    next := BehindObject(s, at + members, objs, rest);
  }

  /** Behind an object and its comma. */
  lemma BehindObject(s: string, end: string, objs: seq<seq<Entry>>, rest: string) returns (next: string)
    requires objs != [] && s == end + (Sep(|objs|) + Objects(objs[1..], rest))
    ensures |end| <= |next| <= |s| && Comma(s, |end|) == |next| && s == next + Objects(objs[1..], rest)
  {
    hide Comma, Sep, Objects;
    ObjectsStart(objs[1..], rest);
    SepIs(|objs|);
    CommaHere(s, end, |objs| > 1, Objects(objs[1..], rest));
    next := end + Sep(|objs|);
    Assoc(end, Sep(|objs|), Objects(objs[1..], rest));
  }

  lemma NoFields()
    ensures FieldsOf([]) == Fields("", "")
  {
  }

  lemma ObjectsOf(objs: seq<seq<Entry>>, rest: string)
    requires objs != []
    ensures Objects(objs, rest) == "{" + Members(objs[0], Sep(|objs|) + Objects(objs[1..], rest))
  {
  }

  /** What is behind an object is where it was. */
  lemma {:induction false} MembersEnd(es: seq<Entry>, rest: string) returns (a: string)
    ensures Members(es, rest) == a + rest && a != ""
    decreases es
  {
    hide Quoted, Sep, Members;
    if es == [] {
      NoMembers(rest);
      a := "}";
    } else {
      var more := MembersEnd(es[1..], rest);
      MembersOf(es, rest);
      var before := (("" + Quoted(es[0].code)) + ":") + Quoted(es[0].desc);
      FourParts("", Quoted(es[0].code), ":", Quoted(es[0].desc), Sep(|es|) + (more + rest));
      Nothing(Members(es, rest));
      Assoc(before, Sep(|es|), more + rest);
      Assoc(before + Sep(|es|), more, rest);
      a := (before + Sep(|es|)) + more;
    }
  }

  lemma Nothing(s: string)
    ensures "" + s == s
  {
  }

  lemma {:induction false} ObjectsAreRead(front: string, objs: seq<seq<Entry>>, rest: string)
    requires forall i :: 0 <= i < |objs| ==> forall e <- objs[i] :: Fits(e)
    ensures |front| < |front + Objects(objs, rest)| && !IsBlank((front + Objects(objs, rest))[|front|])
    ensures ArrayFrom(front + Objects(objs, rest), |front|) == Some(ArraySays(objs))
    decreases objs
  {
    hide Objects, ElementAt, ObjectSays;
    var s, p := front + Objects(objs, rest), |front|;
    ObjectsStart(objs, rest);
    assert s[p] == Objects(objs, rest)[0];
    if objs != [] {
      var next := FirstObject(front, objs, rest);
      ObjectsAreRead(next, objs[1..], rest);
    }
  }

  /** An array of objects written as JSON, of any string members: each object that names a
      code says its last code and its last description, and whatever stands behind the
      bracket is left alone. */
  lemma ArrayIsRead(objs: seq<seq<Entry>>, rest: string)
    requires forall i :: 0 <= i < |objs| ==> forall e <- objs[i] :: Fits(e)
    ensures FileEntries("[" + Objects(objs, rest)) == Some(ArraySays(objs))
  {
    hide Objects, ArrayFrom;
    var s := "[" + Objects(objs, rest);
    ObjectsStart(objs, rest);
    assert s[1] == Objects(objs, rest)[0];
    WsHere(s, 0);
    WsHere(s, 1);
    ObjectsAreRead("[", objs, rest);
  }

  /** One object a row. */
  function AsObjects(es: seq<Entry>): seq<seq<Entry>> {
    seq(|es|, i requires 0 <= i < |es| => [Entry("code", es[i].code), Entry("description", es[i].desc)])
  }

  lemma RowKeys()
    ensures KeyIs("code", CODE_KEYS) && KeyIs("description", DESC_KEYS)
    ensures |"code"| < KEY_CAP && |"description"| < KEY_CAP
  {
    PlainKey("code");
    PlainKey("description");
  }

  lemma {:induction false} PlainKey(s: string)
    requires forall i :: 0 <= i < |s| ==> s[i] != '\0' && Lower(s[i]) == s[i]
    ensures LowerAll(CStr(s)) == s
  {
    if s != "" {
      PlainKey(s[1..]);
    }
  }

  lemma RowSays(e: Entry)
    requires |e.code| < KEY_CAP && e.code != ""
    ensures ObjectSays([Entry("code", e.code), Entry("description", e.desc)]) == [e]
  {
    hide KeyIs;
    RowKeys();
    NamesApart("code");
    NamesApart("description");
    var a, b := Entry("code", e.code), Entry("description", e.desc);
    assert Init([a, b]) == [a] && Last([a, b]) == b && Last([a]) == a;
    assert LastValue([a], CODE_KEYS) == e.code;
    assert LastValue([a, b], CODE_KEYS) == e.code && LastValue([a, b], DESC_KEYS) == e.desc;
  }

  lemma NoObjects()
    ensures AsObjects([]) == []
  {
  }

  lemma OneObjectMore(es: seq<Entry>)
    requires es != []
    ensures AsObjects(es) != [] && AsObjects(es)[0] == [Entry("code", es[0].code), Entry("description", es[0].desc)]
    ensures AsObjects(es)[1..] == AsObjects(es[1..])
  {
  }

  lemma {:induction false} RowsSay(es: seq<Entry>)
    requires forall e <- es :: |e.code| < KEY_CAP && e.code != ""
    ensures ArraySays(AsObjects(es)) == es
    decreases es
  {
    hide ObjectSays, AsObjects;
    if es == [] {
      NoObjects();
    } else {
      assert es[0] in es && forall e <- es[1..] :: e in es;
      RowSays(es[0]);
      OneObjectMore(es);
      RowsSay(es[1..]);
      assert es == [es[0]] + es[1..];
    }
  }

  /** Rows written as an array of objects are read back. */
  lemma ArrayRoundTrip(es: seq<Entry>, rest: string)
    requires forall e <- es :: Fits(e) && e.code != ""
    ensures FileEntries("[" + Objects(AsObjects(es), rest)) == Some(es)
  {
    hide KeyIs, FileEntries, Objects;
    RowKeys();
    RowsSay(es);
    var objs := AsObjects(es);
    forall i | 0 <= i < |objs|
      ensures forall e <- objs[i] :: Fits(e)
    {
      assert es[i] in es;
    }
    ArrayIsRead(objs, rest);
  }

  // ---- quoted lines ----------------------------------------------------------------------------

  /** Quotes doubled. */
  function Doubled(s: string): string {
    if s == "" then "" else (if s[0] == '"' then ['"', '"'] else [s[0]]) + Doubled(s[1..])
  }

  function QuotedField(s: string): string {
    "\"" + (Doubled(s) + "\"")
  }

  predicate IsDelimiter(d: char) {
    d == '\t' || d == ';' || d == ','
  }

  /** A line of two quoted fields. */
  function Line(e: Entry, d: char, end: string): string {
    QuotedField(e.code) + ([d] + (QuotedField(e.desc) + end))
  }

  /** Lines that end in a newline, or in a carriage return and a newline. */
  function Lines(es: seq<Entry>, d: char, cr: bool): string {
    if es == [] then "" else (Line(es[0], d, if cr then "\r" else "") + "\n") + Lines(es[1..], d, cr)
  }

  /** Each character of a field, as it is written. */
  lemma DoubledHead(front: string, t: string, rest: string) returns (next: string)
    requires t != ""
    ensures next == front + if t[0] == '"' then ['"', '"'] else [t[0]]
    ensures front + (Doubled(t) + rest) == next + (Doubled(t[1..]) + rest)
  {
    var e := if t[0] == '"' then ['"', '"'] else [t[0]];
    Assoc(front, e, Doubled(t[1..]) + rest);
    Assoc(e, Doubled(t[1..]), rest);
    next := front + e;
  }

  /** Inside a written field the scan for the delimiter comes out where it ends. */
  lemma {:induction false} ScanField(front: string, t: string, rest: string)
    ensures var line := front + (Doubled(t) + rest);
      Delimiter(line, |front|, true) == Delimiter(line, |front| + |Doubled(t)|, true)
    decreases t
  {
    if t != "" {
      var line := front + (Doubled(t) + rest);
      var next := DoubledHead(front, t, rest);
      assert next <= line;
      ScanField(next, t[1..], rest);
      if t[0] == '"' {
        assert line[|front|] == next[|front|] == '"' && line[|front| + 1] == next[|front| + 1] == '"';
        TwoQuotes(line, |front|);
      } else {
        assert line[|front|] == next[|front|] == t[0];
      }
    }
  }

  lemma TwoQuotes(line: string, i: nat)
    requires i + 1 < |line| && line[i] == '"' && line[i + 1] == '"'
    ensures Delimiter(line, i, true) == Delimiter(line, i + 2, true)
  {
    assert Delimiter(line, i, true) == Delimiter(line, i + 1, false) == Delimiter(line, i + 2, true);
  }

  /** And its content is taken out again, when the buffer holds it. */
  lemma {:induction false} UnquoteField(front: string, t: string, out: string, cap: nat)
    requires |out| + |t| < cap
    ensures Unquote(front + (Doubled(t) + "\""), |front|, out, cap) == out + t
    decreases t
  {
    var f := front + (Doubled(t) + "\"");
    if t == "" {
      assert out + t == out;
    } else {
      var next := DoubledHead(front, t, "\"");
      assert next <= f;
      var k := if t[0] == '"' then |front| + 1 else |front|;
      assert f[|front|] == next[|front|] == t[0] && f[k] == next[k] == t[0];
      UnquoteField(next, t[1..], out + [t[0]], cap);
      assert (out + [t[0]]) + t[1..] == out + t;
    }
  }

  lemma FieldOfQuoted(t: string, cap: nat)
    requires |t| < cap
    ensures Field(QuotedField(t), cap) == t
  {
    hide Unquote, Doubled;
    var f := QuotedField(t);
    assert f[0] == '"' && Last(f) == '"' && |f| >= 2;
    UnquoteField("\"", t, "", cap);
    assert "" + t == t;
  }

  /** A carriage return behind a field is trimmed off. */
  lemma FieldBeforeReturn(t: string, cap: nat)
    requires |t| < cap
    ensures Field(QuotedField(t) + "\r", cap) == t
  {
    hide Unquote, Doubled;
    var f := QuotedField(t);
    assert f[0] == '"' && Last(f) == '"' && |f| >= 2;
    SnocInit(f, '\r');
    assert f + "\r" == f + ['\r'] && (f + "\r")[0] == '"';
    assert TrimBack(f + "\r") == TrimBack(f) == f;
    UnquoteField("\"", t, "", cap);
    assert "" + t == t;
  }

  predicate LineFits(e: Entry) {
    |e.code| < CODE_CAP && |e.desc| < DESC_CAP && '\n' !in e.code && '\n' !in e.desc
  }

  /** The delimiter of a written line is the one between its fields. */
  lemma DelimiterOfLine(e: Entry, d: char, end: string)
    requires IsDelimiter(d)
    ensures var line := Line(e, d, end); Delimiter(line, 0, false) == |QuotedField(e.code)| < |line|
  {
    hide Doubled;
    var line, rest := Line(e, d, end), [d] + (QuotedField(e.desc) + end);
    Assoc("\"", Doubled(e.code) + "\"", rest);
    Assoc(Doubled(e.code), "\"", rest);
    assert line == "\"" + (Doubled(e.code) + ("\"" + rest));
    ScanField("\"", e.code, "\"" + rest);
    var k := |QuotedField(e.code)|;
    assert line[k - 1] == '"' && line[k] == d && line[0] == '"';
    assert Delimiter(line, k - 1, true) == Delimiter(line, k, false) == k;
  }

  lemma LineIsRead(e: Entry, d: char, cr: bool)
    requires IsDelimiter(d) && LineFits(e)
    ensures LineEntry(Line(e, d, if cr then "\r" else "")) == [e]
  {
    hide Field, Delimiter, QuotedField;
    var end := if cr then "\r" else "";
    var line, k := Line(e, d, end), |QuotedField(e.code)|;
    DelimiterOfLine(e, d, end);
    FieldStarts(e.code);
    assert line[0] == '"';
    assert line[..k] == QuotedField(e.code);
    assert line[k + 1..] == QuotedField(e.desc) + end;
    FieldOfQuoted(e.code, CODE_CAP);
    if cr {
      FieldBeforeReturn(e.desc, DESC_CAP);
    } else {
      assert QuotedField(e.desc) + "" == QuotedField(e.desc);
      FieldOfQuoted(e.desc, DESC_CAP);
    }
  }

  lemma FieldStarts(t: string)
    ensures QuotedField(t) != "" && QuotedField(t)[0] == '"'
  {
  }

  lemma {:induction false} DoubledKeepsLine(t: string)
    requires '\n' !in t
    ensures '\n' !in Doubled(t)
  {
    if t != "" {
      assert t[0] in t && forall c <- t[1..] :: c in t;
      DoubledKeepsLine(t[1..]);
    }
  }

  lemma LineIsOneLine(e: Entry, d: char, end: string)
    requires IsDelimiter(d) && LineFits(e) && '\n' !in end
    ensures '\n' !in Line(e, d, end)
  {
    hide Doubled;
    DoubledKeepsLine(e.code);
    DoubledKeepsLine(e.desc);
  }

  lemma NoLines(front: string, d: char, cr: bool)
    ensures TextFrom(front + Lines([], d, cr), |front|) == []
  {
  }

  lemma FirstLine(es: seq<Entry>, d: char, cr: bool)
    requires es != []
    ensures Lines(es, d, cr) == (Line(es[0], d, if cr then "\r" else "") + "\n") + Lines(es[1..], d, cr)
  {
  }

  lemma TextStep(s: string, p: nat)
    requires p < |s|
    ensures TextFrom(s, p) == LineEntry(s[p..Eol(s, p)]) + TextFrom(s, Eol(s, p) + 1)
  {
  }

  lemma {:induction false} LinesAreRead(front: string, es: seq<Entry>, d: char, cr: bool)
    requires IsDelimiter(d) && forall e <- es :: LineFits(e)
    ensures TextFrom(front + Lines(es, d, cr), |front|) == es
    decreases es
  {
    hide Line, LineEntry, Eol, LineFits, Lines, TextFrom;
    var s := front + Lines(es, d, cr);
    if es == [] {
      NoLines(front, d, cr);
    } else {
      FirstLine(es, d, cr);
      assert es[0] in es && forall e <- es[1..] :: e in es;
      var line := Line(es[0], d, if cr then "\r" else "");
      LineIsOneLine(es[0], d, if cr then "\r" else "");
      LineIsRead(es[0], d, cr);
      var next := front + (line + "\n");
      Assoc(front, line + "\n", Lines(es[1..], d, cr));
      assert s == next + Lines(es[1..], d, cr);
      LineInText(s, front, line, next);
      TextStep(s, |front|);
      LinesAreRead(next, es[1..], d, cr);
      assert es == [es[0]] + es[1..];
    }
  }

  lemma Slice(front: string, line: string, behind: string)
    ensures (front + (line + behind))[|front|..|front| + |line|] == line
  {
  }

  lemma LineInText(s: string, front: string, line: string, next: string)
    requires next == front + (line + "\n") && next <= s && '\n' !in line
    ensures Eol(s, |front|) == |front| + |line| == |next| - 1 < |s| && s[|front|..|front| + |line|] == line
  {
    hide Eol;
    var e, rest := |front| + |line|, s[|next|..];
    assert s == next + rest;
    Assoc(front, line + "\n", rest);
    Assoc(line, "\n", rest);
    Slice(front, line, "\n" + rest);
    assert s[e] == '\n';
    forall i | |front| <= i < e
      ensures s[i] != '\n'
    {
      assert s[i] == s[|front|..e][i - |front|];
    }
    EolIs(s, |front|, e);
  }

  /** Rows written as lines of two quoted fields, with any of the delimiters and either
      line end, are read back; quotes, commas and spaces in them included. */
  lemma LinesRoundTrip(es: seq<Entry>, d: char, cr: bool)
    requires es != [] && IsDelimiter(d) && forall e <- es :: LineFits(e)
    ensures FileEntries(Lines(es, d, cr)) == Some(es)
  {
    hide QuotedField, TextFrom;
    var s := Lines(es, d, cr);
    FieldStarts(es[0].code);
    assert s[0] == '"';
    WsHere(s, 0);
    LinesAreRead("", es, d, cr);
    assert "" + s == s;
  }
}
