/** Secrets blanked in a settings tree, and put back from the stored one. */
module Redact {
  import opened Wrappers

  datatype Json =
    | Null
    | Bool(on: bool)
    | Num(value: real)
    | Str(text: string)
    | Arr(items: seq<Json>)
    | Obj(members: seq<Member>)

  datatype Member = Member(key: string, value: Json)

  predicate EndsWith(s: string, suffix: string) {
    |s| >= |suffix| && s[|s| - |suffix|..] == suffix
  }

  /** Keys of secret fields; public keys are not among them. */
  predicate Secret(key: string) {
    EndsWith(key, "_password") || EndsWith(key, "private_key") || EndsWith(key, "preshared_key")
    || EndsWith(key, "auth_key") || EndsWith(key, "_token") || EndsWith(key, "api_key")
  }

  const NAME: string := "name"

  lemma NameIsNoSecret()
    ensures !Secret(NAME)
  {
    assert NAME[|NAME| - 1] == 'e';
    assert |"_token"| == 6 && |"api_key"| == 7 && |"_password"| == 9;
  }

  // ---- redaction -------------------------------------------------------------------

  function RedactMember(m: Member): Member
    decreases m
  {
    match m.value
    case Str(_) => if Secret(m.key) then Member(m.key, Str("")) else m
    case Arr(items) =>
      Member(m.key, Arr(seq(|items|, i requires 0 <= i < |items| => RedactElement(items[i]))))
    case _ => m
  }

  /** An object, at the top or in an array: its secrets blanked. */
  function RedactElement(j: Json): Json
    decreases j
  {
    match j
    case Obj(ms) => Obj(seq(|ms|, k requires 0 <= k < |ms| => RedactMember(ms[k])))
    case _ => j
  }

  // ---- restoration -----------------------------------------------------------------

  /** The first member of that key. */
  function Get(ms: seq<Member>, key: string): Option<Json> {
    if ms == [] then None else if ms[0].key == key then Some(ms[0].value) else Get(ms[1..], key)
  }

  function GetItem(j: Json, key: string): Option<Json> {
    if j.Obj? then Get(j.members, key) else None
  }

  function NameOf(j: Json): Option<string> {
    match GetItem(j, NAME)
    case Some(Str(s)) => Some(s)
    case _ => None
  }

  /** The first row of that name. */
  function Named(rows: seq<Json>, name: string): Option<Json> {
    if rows == [] then None
    else if rows[0].Obj? && NameOf(rows[0]) == Some(name) then Some(rows[0])
    else Named(rows[1..], name)
  }

  /** The stored row of an element: by name when it has one, else by its place. */
  function StoredElement(stored: seq<Json>, el: Json, idx: nat): Option<Json> {
    match NameOf(el)
    case Some(name) => Named(stored, name)
    case None => if idx < |stored| && stored[idx].Obj? then Some(stored[idx]) else None
  }

  function UnredactMember(m: Member, stored: Json): Member
    decreases m
  {
    match m.value
    case Arr(items) =>
      (match GetItem(stored, m.key)
       case Some(Arr(rows)) =>
         Member(m.key, Arr(seq(|items|, i requires 0 <= i < |items| => UnredactRow(items[i], rows, i))))
       case _ => m)
    case Str(text) =>
      if Secret(m.key) && text == "" then
        (match GetItem(stored, m.key)
         case Some(Str(kept)) => Member(m.key, Str(kept))
         case _ => m)
      else m
    case _ => m
  }

  function UnredactRow(el: Json, rows: seq<Json>, idx: nat): Json
    decreases el, 1
  {
    if !el.Obj? then el
    else
      match StoredElement(rows, el, idx)
      case Some(was) => UnredactElement(el, was)
      case None => el
  }

  function UnredactElement(el: Json, was: Json): Json
    decreases el, 0
  {
    match el
    case Obj(ms) => Obj(seq(|ms|, k requires 0 <= k < |ms| => UnredactMember(ms[k], was)))
    case _ => el
  }

  // ---- round trip --------------------------------------------------------------------

  predicate UniqueKeys(ms: seq<Member>) {
    forall i, j :: 0 <= i < j < |ms| ==> ms[i].key != ms[j].key
  }

  predicate UniqueNames(rows: seq<Json>) {
    forall i, j :: 0 <= i < j < |rows| && rows[i].Obj? && rows[j].Obj? && NameOf(rows[i]).Some? ==>
      NameOf(rows[i]) != NameOf(rows[j])
  }

  /** Unique keys and unique row names, wherever the two functions reach. */
  predicate WellNamed(j: Json)
    decreases j
  {
    match j
    case Obj(ms) => UniqueKeys(ms) && forall k :: 0 <= k < |ms| ==> WellNamedMember(ms[k])
    case _ => true
  }

  predicate WellNamedMember(m: Member)
    decreases m
  {
    match m.value
    case Arr(items) => UniqueNames(items) && forall i :: 0 <= i < |items| ==> WellNamed(items[i])
    case _ => true
  }

  lemma {:induction false} GetUnique(ms: seq<Member>, k: nat)
    requires UniqueKeys(ms) && k < |ms|
    ensures Get(ms, ms[k].key) == Some(ms[k].value)
  {
    if k > 0 {
      GetUnique(ms[1..], k - 1);
    }
  }

  /** Redaction keeps the keys, and what it does to a value does not hide a name. */
  lemma {:induction false} GetRedacted(ms: seq<Member>, key: string)
    requires !Secret(key)
    ensures var rs := seq(|ms|, k requires 0 <= k < |ms| => RedactMember(ms[k]));
      match Get(ms, key)
      case None => Get(rs, key) == None
      case Some(v) => Get(rs, key) == Some(RedactMember(Member(key, v)).value)
  {
    if ms != [] {
      GetRedacted(ms[1..], key);
      var rs := seq(|ms|, k requires 0 <= k < |ms| => RedactMember(ms[k]));
      assert rs[1..] == seq(|ms| - 1, k requires 0 <= k < |ms| - 1 => RedactMember(ms[1..][k]));
    }
  }

  lemma NameSurvives(j: Json)
    ensures NameOf(RedactElement(j)) == NameOf(j)
  {
    NameIsNoSecret();
    if j.Obj? {
      GetRedacted(j.members, NAME);
    }
  }

  lemma {:induction false} NamedUnique(rows: seq<Json>, i: nat)
    requires UniqueNames(rows) && i < |rows| && rows[i].Obj? && NameOf(rows[i]).Some?
    ensures Named(rows, NameOf(rows[i]).value) == Some(rows[i])
  {
    if i > 0 {
      assert rows[1..][i - 1] == rows[i];
      NamedUnique(rows[1..], i - 1);
    }
  }

  /** A redacted row finds the row it came from, in its place or, named, in any. */
  lemma RowFound(rows: seq<Json>, j: nat, idx: nat)
    requires UniqueNames(rows) && j < |rows| && rows[j].Obj?
    requires NameOf(rows[j]).Some? || idx == j
    ensures UnredactRow(RedactElement(rows[j]), rows, idx) == UnredactElement(RedactElement(rows[j]), rows[j])
  {
    hide UnredactElement, NameOf, Named;
    NameSurvives(rows[j]);
    if NameOf(rows[j]).Some? {
      NamedUnique(rows, j);
    }
  }

  /** Redacting and putting back is the identity. */
  lemma {:induction false} RoundTrip(t: Json)
    requires WellNamed(t)
    ensures UnredactElement(RedactElement(t), t) == t
    decreases t
  {
    if t.Obj? {
      var ms := t.members;
      var back := UnredactElement(RedactElement(t), t).members;
      forall k | 0 <= k < |ms|
        ensures back[k] == ms[k]
      {
        GetUnique(ms, k);
        MemberBack(ms[k], t);
      }
      assert back == ms;
    }
  }

  lemma {:induction false} MemberBack(m: Member, t: Json)
    requires WellNamedMember(m) && GetItem(t, m.key) == Some(m.value)
    ensures UnredactMember(RedactMember(m), t) == m
    decreases m
  {
    if m.value.Arr? {
      var items := m.value.items;
      var shown := RedactMember(m).value.items;
      var back := UnredactMember(RedactMember(m), t).value.items;
      forall i | 0 <= i < |items|
        ensures back[i] == items[i]
      {
        assert shown[i] == RedactElement(items[i]) && back[i] == UnredactRow(shown[i], items, i);
        if items[i].Obj? {
          RowFound(items, i, i);
          RoundTrip(items[i]);
        }
      }
      assert back == items;
    }
  }

  /** Rows reordered, deleted or repeated by the client: each named row gets its own
      secrets back. */
  lemma {:induction false} ReorderedRows(rows: seq<Json>, sent: seq<Json>, from: seq<nat>)
    requires UniqueNames(rows) && forall i :: 0 <= i < |rows| ==> WellNamed(rows[i])
    requires |from| == |sent| && forall i :: 0 <= i < |sent| ==>
      from[i] < |rows| && rows[from[i]].Obj? && NameOf(rows[from[i]]).Some? && sent[i] == RedactElement(rows[from[i]])
    ensures forall i :: 0 <= i < |sent| ==> UnredactRow(sent[i], rows, i) == rows[from[i]]
  {
    hide UnredactRow, UnredactElement, RedactElement, NameOf, WellNamed;
    forall i | 0 <= i < |sent|
      ensures UnredactRow(sent[i], rows, i) == rows[from[i]]
    {
      RowFound(rows, from[i], i);
      RoundTrip(rows[from[i]]);
    }
  }

  // ---- what is never changed ------------------------------------------------------------

  /** The two differ only in secret fields the first one left blank. */
  predicate Fills(a: Json, b: Json)
    decreases a
  {
    match (a, b)
    case (Obj(ms), Obj(ns)) => |ms| == |ns| && forall k :: 0 <= k < |ms| ==> FillsMember(ms[k], ns[k])
    case _ => a == b
  }

  predicate FillsMember(m: Member, n: Member)
    decreases m
  {
    && m.key == n.key
    && match (m.value, n.value)
       case (Str(s), Str(t)) => s == t || (Secret(m.key) && s == "")
       case (Arr(xs), Arr(ys)) => |xs| == |ys| && forall i :: 0 <= i < |xs| ==> Fills(xs[i], ys[i])
       case _ => m.value == n.value
  }

  /** Nothing the client supplied is overwritten, whatever is stored. */
  lemma {:induction false} ClientWins(el: Json, was: Json)
    ensures Fills(el, UnredactElement(el, was))
    decreases el
  {
    if el.Obj? {
      forall k | 0 <= k < |el.members|
        ensures FillsMember(el.members[k], UnredactMember(el.members[k], was))
      {
        ClientWinsMember(el.members[k], was);
      }
    }
  }

  lemma {:induction false} ClientWinsMember(m: Member, was: Json)
    ensures FillsMember(m, UnredactMember(m, was))
    decreases m
  {
    if m.value.Arr? {
      var items, n := m.value.items, UnredactMember(m, was);
      FillsSelf(m);
      if GetItem(was, m.key).Some? && GetItem(was, m.key).value.Arr? {
        var rows := GetItem(was, m.key).value.items;
        forall i | 0 <= i < |items|
          ensures Fills(items[i], UnredactRow(items[i], rows, i))
        {
          FillsItself(items[i]);
          if items[i].Obj? && StoredElement(rows, items[i], i).Some? {
            ClientWins(items[i], StoredElement(rows, items[i], i).value);
          }
        }
      }
    }
  }

  lemma {:induction false} FillsItself(a: Json)
    ensures Fills(a, a)
    decreases a
  {
    if a.Obj? {
      forall k | 0 <= k < |a.members|
        ensures FillsMember(a.members[k], a.members[k])
      {
        FillsSelf(a.members[k]);
      }
    }
  }

  lemma {:induction false} FillsSelf(m: Member)
    ensures FillsMember(m, m)
    decreases m
  {
    if m.value.Arr? {
      forall i | 0 <= i < |m.value.items|
        ensures Fills(m.value.items[i], m.value.items[i])
      {
        FillsItself(m.value.items[i]);
      }
    }
  }

  /** What is shown does not depend on the secrets: a redacted tree filled in any way
      is redacted to the same. */
  lemma {:induction false} NothingShows(a: Json, b: Json)
    requires Fills(RedactElement(a), b)
    ensures RedactElement(b) == RedactElement(a)
    decreases a
  {
    if a.Obj? {
      var ms, ns := a.members, b.members;
      forall k | 0 <= k < |ms|
        ensures RedactMember(ns[k]) == RedactMember(ms[k])
      {
        assert FillsMember(RedactElement(a).members[k], ns[k]);
        NothingShowsMember(ms[k], ns[k]);
      }
      assert RedactElement(b).members == RedactElement(a).members;
    }
  }

  lemma {:induction false} NothingShowsMember(m: Member, n: Member)
    requires FillsMember(RedactMember(m), n)
    ensures RedactMember(n) == RedactMember(m)
    decreases m
  {
    if m.value.Arr? {
      var xs, ys := m.value.items, n.value.items;
      forall i | 0 <= i < |xs|
        ensures RedactElement(ys[i]) == RedactElement(xs[i])
      {
        assert Fills(RedactMember(m).value.items[i], ys[i]);
        NothingShows(xs[i], ys[i]);
      }
      assert RedactMember(n).value.items == RedactMember(m).value.items;
    }
  }
}
