// `document.cookie` as the browser presents it, the two ways the theme
// code reads a cookie out of it, and what writing one with `path=/` does.
module Cookies {
  import opened Wrappers
  import opened Text

  datatype Cookie = Cookie(name: string, value: string)

  /** `name=value`, as a cookie appears in `document.cookie`. */
  function Entry(c: Cookie): string
  {
    c.name + "=" + c.value
  }

  /** `document.cookie`: the entries joined by `"; "`. */
  function Serialize(jar: seq<Cookie>): string
  {
    if jar == [] then ""
    else if |jar| == 1 then Entry(jar[0])
    else Entry(jar[0]) + "; " + Serialize(jar[1..])
  }

  predicate NoChar(s: string, c: char)
  {
    forall i :: 0 <= i < |s| ==> s[i] != c
  }

  /** A name as the theme code uses them: no separator characters. */
  predicate NameOk(name: string)
  {
    NoChar(name, ';') && NoChar(name, '=')
  }

  /** A value without `;` or `=`. */
  predicate ValueOk(value: string)
  {
    NoChar(value, ';') && NoChar(value, '=')
  }

  predicate WellFormed(jar: seq<Cookie>)
  {
    forall i :: 0 <= i < |jar| ==> NameOk(jar[i].name) && ValueOk(jar[i].value)
  }

  predicate NoneNamed(jar: seq<Cookie>, name: string)
  {
    forall i :: 0 <= i < |jar| ==> jar[i].name != name
  }

  /** `getCookie` of the theme toggles: the text after `"; name="` in
      `"; " + document.cookie` up to the next `;`, but only when that
      marker occurs exactly once, and never the empty string. */
  function GetCookie(doc: string, name: string): (r: Option<string>)
    ensures r.Some? ==> r.value != "" && |Split("; " + doc, "; " + name + "=")| == 2
  {
    var parts := Split("; " + doc, "; " + name + "=");
    if |parts| == 2 then
      var v := Split(parts[1], ";")[0];
      if v == "" then None else Some(v)
    else None
  }

  /** The first element of `rows` that starts with `prefix`. */
  function FindFirst(rows: seq<string>, prefix: string): (r: Option<nat>)
    ensures r.Some? ==> r.value < |rows| && StartsWith(rows[r.value], prefix)
                        && forall j :: 0 <= j < r.value ==> !StartsWith(rows[j], prefix)
    ensures r.None? ==> forall j :: 0 <= j < |rows| ==> !StartsWith(rows[j], prefix)
  {
    if rows == [] then None
    else if StartsWith(rows[0], prefix) then Some(0)
    else
      match FindFirst(rows[1..], prefix)
      case None => None
      case Some(k) => Some(k + 1)
  }

  /** The cookie read of the editor's dark-mode context: the first
      `"; "`-separated row starting with `name=`, and in it the text
      between the first and the second `=`. */
  function FirstCookie(doc: string, name: string): Option<string>
  {
    var rows := Split(doc, "; ");
    match FindFirst(rows, name + "=")
    case None => None
    case Some(k) =>
      var pieces := Split(rows[k], "=");
      if |pieces| >= 2 then Some(pieces[1]) else None
  }

  /** The first-match reader finds a value only in a row that starts
      with `name=`, and the value holds no `=`. */
  lemma FirstCookieFromRow(doc: string, name: string)
    ensures FirstCookie(doc, name).Some? ==>
              exists k :: 0 <= k < |Split(doc, "; ")| && StartsWith(Split(doc, "; ")[k], name + "=")
    ensures FirstCookie(doc, name).Some? ==> !Contains(FirstCookie(doc, name).value, "=")
  {
    var rows := Split(doc, "; ");
    match FindFirst(rows, name + "=")
    case None =>
    case Some(k) =>
      SplitPiecesFree(rows[k], "=");
  }

  /** Writing `name=value` with `path=/`: the cookie of that name is
      replaced where it stands, or added at the end. Every cookie in the
      jar is taken to be one of `path=/`, as all writes here are. */
  function Store(jar: seq<Cookie>, name: string, value: string): (r: seq<Cookie>)
    ensures |r| == |jar| || |r| == |jar| + 1
  {
    if jar == [] then [Cookie(name, value)]
    else if jar[0].name == name then [Cookie(name, value)] + jar[1..]
    else [jar[0]] + Store(jar[1..], name, value)
  }

  // ---------------------------------------------------------------------
  // Proofs
  // ---------------------------------------------------------------------

  /** `"; "` before every entry. */
  function Lead(jar: seq<Cookie>): string
  {
    if jar == [] then "" else "; " + Entry(jar[0]) + Lead(jar[1..])
  }

  lemma {:induction false} LeadSerialize(jar: seq<Cookie>)
    requires jar != []
    ensures "; " + Serialize(jar) == Lead(jar)
  {
    var sep, e, tail := "; ", Entry(jar[0]), jar[1..];
    if |jar| > 1 {
      LeadSerialize(tail);
      var rest := Serialize(tail);
      assert Serialize(jar) == e + sep + rest;
      assert Lead(jar) == sep + e + (sep + rest);
      assert sep + (e + sep + rest) == sep + e + (sep + rest);
    } else {
      assert tail == [];
    }
  }

  lemma {:induction false} LeadAppend(a: seq<Cookie>, b: seq<Cookie>)
    ensures Lead(a + b) == Lead(a) + Lead(b)
  {
    if a != [] {
      assert (a + b)[0] == a[0] && (a + b)[1..] == a[1..] + b;
      LeadAppend(a[1..], b);
    } else {
      assert a + b == b;
    }
  }

  /** A cookie name followed by `=` starts with `name=` only if it is
      `name`. */
  lemma NameMismatch(other: string, tail: string, name: string)
    requires NoChar(other, '=') && NoChar(name, '=') && other != name
    ensures !StartsWith(other + "=" + tail, name + "=")
  {
    var s := other + "=" + tail;
    if |other| < |name| {
      assert s[|other|] == '=';
      assert name[|other|] != '=';
    } else if |other| > |name| {
      assert s[|name|] == other[|name|];
    } else {
      assert s[..|other|] == other;
    }
  }

  /** `"; "` and `n` occur at the start of `"; " + x` only if `x` starts
      with `n`. */
  lemma MarkerAtStart(x: string, n: string)
    ensures OccursAt("; " + x, "; " + n, 0) ==> StartsWith(x, n)
  {
    if OccursAt("; " + x, "; " + n, 0) {
      assert ("; " + x)[2..2 + |n|] == x[..|n|];
      assert ("; " + n)[2..] == n;
    }
  }

  /** An occurrence after a prefix is an occurrence in the rest. */
  lemma OccursShift(x: string, y: string, sub: string, j: int)
    requires 0 <= j
    ensures OccursAt(x + y, sub, |x| + j) <==> OccursAt(y, sub, j)
  {
    if j + |sub| <= |y| {
      assert (x + y)[|x| + j..|x| + j + |sub|] == y[j..j + |sub|];
    }
  }

  /** No `;` in `w`: nothing starting with `;` occurs inside it. */
  lemma NoSemicolonStart(w: string, y: string, sub: string, i: int)
    requires NoChar(w, ';') && |sub| > 0 && sub[0] == ';' && 0 <= i < |w|
    ensures !OccursAt(w + y, sub, i)
  {
    assert (w + y)[i] == w[i] != ';';
  }

  lemma LeadCons(jar: seq<Cookie>, w: string, rest: string)
    requires jar != []
    ensures w + Lead(jar) + rest == w + ("; " + (Entry(jar[0]) + Lead(jar[1..]) + rest))
    ensures w + Lead(jar) + rest == (w + "; ") + (Entry(jar[0]) + Lead(jar[1..]) + rest)
  {
    var e, l := Entry(jar[0]), Lead(jar[1..]);
    assert Lead(jar) == "; " + e + l;
    assert w + ("; " + e + l) + rest == w + ("; " + (e + l + rest));
    assert w + ("; " + (e + l + rest)) == (w + "; ") + (e + l + rest);
  }

  /** The marker does not start at the `"; "` before an entry of another
      name. */
  lemma NoMarkerAtSeparator(w: string, c: Cookie, mid: string, rest: string, name: string)
    requires NameOk(c.name) && NameOk(name) && c.name != name
    ensures !OccursAt(w + ("; " + (Entry(c) + mid + rest)), "; " + name + "=", |w|)
  {
    var x := Entry(c) + mid + rest;
    NameMismatch(c.name, c.value + mid + rest, name);
    assert x == c.name + "=" + (c.value + mid + rest);
    OccursShift(w, "; " + x, "; " + name + "=", 0);
    MarkerAtStart(x, name + "=");
  }

  /** The marker does not start at the space of a `"; "`. */
  lemma NoMarkerAtSpace(w: string, x: string, name: string)
    ensures !OccursAt(w + ("; " + x), "; " + name + "=", |w| + 1)
  {
    var marker := "; " + name + "=";
    OccursShift(w, "; " + x, marker, 1);
    NoSemicolonStart(" ", x, marker, 0);
    assert "; " + x == ";" + (" " + x);
    OccursShift(";", " " + x, marker, 0);
  }

  /** A text without `;` followed by well-formed entries none of which is
      named `name`: the marker `"; name="` starts nowhere in it. */
  lemma {:induction false} NoMarkerAt(w: string, jar: seq<Cookie>, rest: string, name: string, i: int)
    requires NoChar(w, ';') && WellFormed(jar) && NoneNamed(jar, name) && NameOk(name)
    requires 0 <= i < |w| + |Lead(jar)|
    ensures !OccursAt(w + Lead(jar) + rest, "; " + name + "=", i)
    decreases |jar|
  {
    var marker := "; " + name + "=";
    if i < |w| {
      NoSemicolonStart(w, Lead(jar) + rest, marker, i);
      assert w + Lead(jar) + rest == w + (Lead(jar) + rest);
    } else {
      LeadCons(jar, w, rest);
      if i == |w| {
        NoMarkerAtSeparator(w, jar[0], Lead(jar[1..]), rest, name);
      } else if i == |w| + 1 {
        NoMarkerAtSpace(w, Entry(jar[0]) + Lead(jar[1..]) + rest, name);
      } else {
        NoMarkerInTail(w, jar, rest, name, i);
      }
    }
  }

  /** The recursive case of `NoMarkerAt`: past the `"; "` the rest of the
      jar is searched from its first entry. */
  lemma {:induction false} NoMarkerInTail(w: string, jar: seq<Cookie>, rest: string, name: string, i: int)
    requires NoChar(w, ';') && WellFormed(jar) && NoneNamed(jar, name) && NameOk(name)
    requires jar != [] && |w| + 2 <= i < |w| + |Lead(jar)|
    ensures !OccursAt(w + Lead(jar) + rest, "; " + name + "=", i)
    decreases |jar|, 0
  {
    var e := Entry(jar[0]);
    assert WellFormed(jar[1..]) && NoneNamed(jar[1..], name) by {
      assert forall k :: 0 <= k < |jar[1..]| ==> jar[1..][k] == jar[k + 1];
    }
    assert NoChar(e, ';') by {
      assert NameOk(jar[0].name) && ValueOk(jar[0].value);
    }
    assert |Lead(jar)| == 2 + |e| + |Lead(jar[1..])|;
    NoMarkerAt(e, jar[1..], rest, name, i - |w| - 2);
    LeadCons(jar, w, rest);
    OccursShift(w + "; ", e + Lead(jar[1..]) + rest, "; " + name + "=", i - |w| - 2);
  }

  lemma NoMarker(w: string, jar: seq<Cookie>, rest: string, name: string)
    requires NoChar(w, ';') && WellFormed(jar) && NoneNamed(jar, name) && NameOk(name)
    ensures forall i :: 0 <= i < |w| + |Lead(jar)| ==> !OccursAt(w + Lead(jar) + rest, "; " + name + "=", i)
  {
    forall i | 0 <= i < |w| + |Lead(jar)|
      ensures !OccursAt(w + Lead(jar) + rest, "; " + name + "=", i)
    {
      NoMarkerAt(w, jar, rest, name, i);
    }
  }

  /** Splitting at the first occurrence of the separator. */
  lemma SplitAtFirst(x: string, sep: string, y: string)
    requires |sep| > 0
    requires forall i :: 0 <= i < |x| ==> !OccursAt(x + sep + y, sep, i)
    ensures Split(x + sep + y, sep) == [x] + Split(y, sep)
  {
    var s := x + sep + y;
    assert OccursAt(s, sep, |x|) by {
      assert s[|x|..|x| + |sep|] == sep;
    }
    var r := IndexOf(s, sep);
    assert r.Some?;
    assert r.value == |x|;
    assert s[..|x|] == x && s[|x| + |sep|..] == y;
  }

  lemma SplitNone(s: string, sep: string)
    requires |sep| > 0
    requires forall i :: 0 <= i < |s| ==> !OccursAt(s, sep, i)
    ensures Split(s, sep) == [s]
  {
  }

  /** `"; " + document.cookie` around the one cookie named `name`. */
  lemma AroundCookie(a: seq<Cookie>, value: string, b: seq<Cookie>, name: string)
    ensures "; " + Serialize(a + [Cookie(name, value)] + b) == Lead(a) + ("; " + name + "=") + (value + Lead(b))
  {
    var c := Cookie(name, value);
    var jar := a + [c] + b;
    LeadSerialize(jar);
    LeadAppend(a + [c], b);
    LeadAppend(a, [c]);
    LeadSingle(c);
    calc {
      "; " + Serialize(jar);
      Lead(a + [c]) + Lead(b);
      Lead(a) + ("; " + name + "=" + value) + Lead(b);
      { ConcatAssoc4(Lead(a), "; " + name + "=", value, Lead(b)); }
      Lead(a) + ("; " + name + "=") + (value + Lead(b));
    }
  }

  lemma LeadSingle(c: Cookie)
    ensures Lead([c]) == "; " + c.name + "=" + c.value
  {
    assert [c][1..] == [];
  }

  lemma ConcatAssoc4(p: string, q: string, r: string, t: string)
    ensures p + (q + r) + t == p + q + (r + t)
  {
  }

  /** A value and the entries after it, up to the first `;`. */
  lemma ValueUpToSemicolon(value: string, b: seq<Cookie>)
    requires NoChar(value, ';')
    ensures Split(value + Lead(b), ";")[0] == value
  {
    if b == [] {
      assert value + Lead(b) == value;
      WholeWithoutSemicolon(value);
    } else {
      var y := " " + Entry(b[0]) + Lead(b[1..]);
      LeadStartsWithSemicolon(b);
      assert value + Lead(b) == value + ";" + y;
      UpToSemicolon(value, y);
    }
  }

  lemma WholeWithoutSemicolon(value: string)
    requires NoChar(value, ';')
    ensures Split(value, ";") == [value]
  {
    forall i | 0 <= i < |value|
      ensures !OccursAt(value, ";", i)
    {
      NoSemicolonStart(value, "", ";", i);
      assert value + "" == value;
    }
    SplitNone(value, ";");
  }

  lemma UpToSemicolon(value: string, y: string)
    requires NoChar(value, ';')
    ensures Split(value + ";" + y, ";")[0] == value
  {
    forall i | 0 <= i < |value|
      ensures !OccursAt(value + ";" + y, ";", i)
    {
      NoSemicolonStart(value, ";" + y, ";", i);
      assert value + (";" + y) == value + ";" + y;
    }
    SplitAtFirst(value, ";", y);
  }

  lemma LeadStartsWithSemicolon(b: seq<Cookie>)
    requires b != []
    ensures Lead(b) == ";" + (" " + Entry(b[0]) + Lead(b[1..]))
  {
    assert "; " == ";" + " ";
  }

  /** Where exactly one cookie is named `name`, `getCookie` reads its
      value. */
  lemma GetCookieReadsUnique(a: seq<Cookie>, value: string, b: seq<Cookie>, name: string)
    requires WellFormed(a) && WellFormed(b) && NoneNamed(a, name) && NoneNamed(b, name)
    requires NameOk(name) && ValueOk(value) && value != ""
    ensures GetCookie(Serialize(a + [Cookie(name, value)] + b), name) == Some(value)
  {
    PiecesAroundUnique(a, value, b, name);
    ValueUpToSemicolon(value, b);
  }

  /** The marker splits `"; " + document.cookie` in two around the one
      cookie named `name`. */
  lemma PiecesAroundUnique(a: seq<Cookie>, value: string, b: seq<Cookie>, name: string)
    requires WellFormed(a) && WellFormed(b) && NoneNamed(a, name) && NoneNamed(b, name)
    requires NameOk(name) && ValueOk(value)
    ensures Split("; " + Serialize(a + [Cookie(name, value)] + b), "; " + name + "=") == [Lead(a), value + Lead(b)]
  {
    var marker := "; " + name + "=";
    var y := value + Lead(b);
    AroundCookie(a, value, b, name);
    BeforeFirstMarker(a, y, name);
    NoMarker(value, b, "", name);
    assert y + "" == y;
    SplitNone(y, marker);
  }

  /** Entries none of which is named `name`, then the marker: the split
      happens right there. */
  lemma BeforeFirstMarker(a: seq<Cookie>, y: string, name: string)
    requires WellFormed(a) && NoneNamed(a, name) && NameOk(name)
    ensures Split(Lead(a) + ("; " + name + "=") + y, "; " + name + "=") == [Lead(a)] + Split(y, "; " + name + "=")
  {
    var marker := "; " + name + "=";
    NoMarker("", a, marker + y, name);
    assert "" + Lead(a) + (marker + y) == Lead(a) + marker + y;
    SplitAtFirst(Lead(a), marker, y);
  }

  /** Where no cookie is named `name`, `getCookie` finds none, also
      when another cookie's name merely ends in `name`. */
  lemma AbsentCookieUnread(jar: seq<Cookie>, name: string)
    requires WellFormed(jar) && NoneNamed(jar, name) && NameOk(name)
    ensures GetCookie(Serialize(jar), name).None?
  {
    var marker := "; " + name + "=";
    if jar == [] {
      SplitNone("; ", marker);
    } else {
      LeadSerialize(jar);
      NoMarker("", jar, "", name);
      assert "" + Lead(jar) + "" == Lead(jar);
      SplitNone(Lead(jar), marker);
    }
  }

  /** A cookie whose value is empty reads as absent. */
  lemma EmptyValueUnread(a: seq<Cookie>, b: seq<Cookie>, name: string)
    requires WellFormed(a) && WellFormed(b) && NoneNamed(a, name) && NoneNamed(b, name) && NameOk(name)
    ensures GetCookie(Serialize(a + [Cookie(name, "")] + b), name).None?
  {
    PiecesAroundUnique(a, "", b, name);
    ValueUpToSemicolon("", b);
  }

  /** Where two cookies are named `name` (say from different paths),
      `getCookie` finds none. */
  lemma GetCookieRejectsDuplicates(a: seq<Cookie>, v1: string, b: seq<Cookie>, v2: string, c: seq<Cookie>,
                                   name: string)
    requires WellFormed(a) && WellFormed(b) && NoneNamed(a, name) && NoneNamed(b, name)
    requires NameOk(name) && ValueOk(v1)
    ensures GetCookie(Serialize(a + [Cookie(name, v1)] + b + [Cookie(name, v2)] + c), name).None?
  {
    var rest := b + [Cookie(name, v2)] + c;
    assert a + [Cookie(name, v1)] + b + [Cookie(name, v2)] + c == a + [Cookie(name, v1)] + rest;
    AroundCookie(a, v1, rest, name);
    BeforeFirstMarker(a, v1 + Lead(rest), name);
    SecondMarker(v1, b, v2, c, name);
  }

  /** After the first cookie named `name`, a second one splits again. */
  lemma SecondMarker(v1: string, b: seq<Cookie>, v2: string, c: seq<Cookie>, name: string)
    requires WellFormed(b) && NoneNamed(b, name) && NameOk(name) && ValueOk(v1)
    ensures |Split(v1 + Lead(b + [Cookie(name, v2)] + c), "; " + name + "=")| >= 2
  {
    var marker := "; " + name + "=";
    var x := v1 + Lead(b);
    var z := v2 + Lead(c);
    AroundSecond(v1, b, v2, c, name);
    NoMarker(v1, b, marker + z, name);
    assert v1 + Lead(b) + (marker + z) == x + marker + z;
    SplitAtFirst(x, marker, z);
  }

  lemma AroundSecond(v1: string, b: seq<Cookie>, v2: string, c: seq<Cookie>, name: string)
    ensures v1 + Lead(b + [Cookie(name, v2)] + c) == (v1 + Lead(b)) + ("; " + name + "=") + (v2 + Lead(c))
  {
    var second := Cookie(name, v2);
    LeadAround(b, second, c);
    LeadSingle(second);
    Regroup(v1, Lead(b), "; " + name + "=", v2, Lead(c));
  }

  /** `Lead` of a jar split around one cookie. */
  lemma LeadAround(b: seq<Cookie>, second: Cookie, c: seq<Cookie>)
    ensures Lead(b + [second] + c) == Lead(b) + Lead([second]) + Lead(c)
  {
    LeadAppend(b + [second], c);
    LeadAppend(b, [second]);
  }

  lemma Regroup(p: string, q: string, m: string, r: string, t: string)
    ensures p + (q + (m + r) + t) == (p + q) + m + (r + t)
  {
  }

  /** `"; "`-splitting `document.cookie` gives back its entries. */
  /** No `"; "` starts inside a text without `;`, whatever follows it. */
  lemma NoSeparatorIn(e: string, y: string)
    requires NoChar(e, ';')
    ensures forall i :: 0 <= i < |e| ==> !OccursAt(e + y, "; ", i)
  {
    forall i | 0 <= i < |e|
      ensures !OccursAt(e + y, "; ", i)
    {
      assert (e + y)[i] == e[i];
    }
  }

  /** The entries of a jar: those of its first cookie and of the rest. */
  lemma EntriesCons(jar: seq<Cookie>)
    requires jar != []
    ensures seq(|jar|, i requires 0 <= i < |jar| => Entry(jar[i]))
            == [Entry(jar[0])] + seq(|jar| - 1, i requires 0 <= i < |jar| - 1 => Entry(jar[1..][i]))
  {
  }

  lemma {:induction false} SplitRows(jar: seq<Cookie>)
    requires WellFormed(jar) && jar != []
    ensures Split(Serialize(jar), "; ") == seq(|jar|, i requires 0 <= i < |jar| => Entry(jar[i]))
  {
    var e := Entry(jar[0]);
    assert NoChar(e, ';') by {
      assert NameOk(jar[0].name) && ValueOk(jar[0].value);
    }
    if |jar| == 1 {
      NoSeparatorIn(e, "");
      assert e + "" == e;
      SplitNone(e, "; ");
    } else {
      assert WellFormed(jar[1..]) by {
        assert forall k :: 0 <= k < |jar[1..]| ==> jar[1..][k] == jar[k + 1];
      }
      SplitRows(jar[1..]);
      NoSeparatorIn(e, "; " + Serialize(jar[1..]));
      assert e + "; " + Serialize(jar[1..]) == e + ("; " + Serialize(jar[1..]));
      SplitAtFirst(e, "; ", Serialize(jar[1..]));
      EntriesCons(jar);
    }
  }

  /** An entry's text after `name=` up to the next `=`. */
  lemma EntryValue(c: Cookie)
    requires NameOk(c.name) && ValueOk(c.value)
    ensures |Split(Entry(c), "=")| >= 2 && Split(Entry(c), "=")[1] == c.value
  {
    forall i | 0 <= i < |c.name|
      ensures !OccursAt(c.name + "=" + c.value, "=", i)
    {
      assert (c.name + "=" + c.value)[i] == c.name[i];
    }
    SplitAtFirst(c.name, "=", c.value);
    forall i | 0 <= i < |c.value|
      ensures !OccursAt(c.value, "=", i)
    {
      assert c.value[i] != '=';
    }
    SplitNone(c.value, "=");
  }

  /** The dark-mode context reads the value of the first cookie named
      `name`, whoever else shares the name. */
  lemma FirstCookieReadsFirst(a: seq<Cookie>, value: string, b: seq<Cookie>, name: string)
    requires WellFormed(a) && WellFormed(b) && NoneNamed(a, name) && NameOk(name) && ValueOk(value)
    ensures FirstCookie(Serialize(a + [Cookie(name, value)] + b), name) == Some(value)
  {
    var jar := a + [Cookie(name, value)] + b;
    assert WellFormed(jar);
    SplitRows(jar);
    var rows := Split(Serialize(jar), "; ");
    assert rows[|a|] == Entry(Cookie(name, value));
    assert StartsWith(rows[|a|], name + "=");
    forall j | 0 <= j < |a|
      ensures !StartsWith(rows[j], name + "=")
    {
      assert rows[j] == Entry(a[j]) == a[j].name + "=" + a[j].value;
      NameMismatch(a[j].name, a[j].value, name);
    }
    var k := FindFirst(rows, name + "=");
    assert k == Some(|a|);
    EntryValue(Cookie(name, value));
  }

  /** Writing replaces the first cookie of that name, or appends: what
      comes before it holds no cookie of the name, and when the jar held
      at most one, neither does what comes after. */
  lemma {:induction false} StoreShape(jar: seq<Cookie>, name: string, value: string)
    returns (a: seq<Cookie>, b: seq<Cookie>)
    requires WellFormed(jar)
    ensures Store(jar, name, value) == a + [Cookie(name, value)] + b
    ensures NoneNamed(a, name) && WellFormed(a) && WellFormed(b)
    ensures AtMostOne(jar, name) ==> NoneNamed(b, name)
  {
    if jar == [] {
      a, b := [], [];
      return;
    }
    var rest := jar[1..];
    assert WellFormed(rest) by {
      assert forall k :: 0 <= k < |rest| ==> rest[k] == jar[k + 1];
    }
    if jar[0].name == name {
      a, b := [], rest;
      if AtMostOne(jar, name) {
        forall k | 0 <= k < |b|
          ensures b[k].name != name
        {
          assert b[k] == jar[k + 1];
        }
      }
    } else {
      if AtMostOne(jar, name) {
        forall i, j | 0 <= i < j < |rest| && rest[i].name == name
          ensures rest[j].name != name
        {
          assert rest[i] == jar[i + 1] && rest[j] == jar[j + 1];
        }
      }
      var a', b' := StoreShape(rest, name, value);
      a, b := [jar[0]] + a', b';
      assert Store(jar, name, value) == [jar[0]] + Store(rest, name, value);
      assert NameOk(jar[0].name) && ValueOk(jar[0].value);
    }
  }

  /** At most one cookie carries `name`. */
  predicate AtMostOne(jar: seq<Cookie>, name: string)
  {
    forall i, j :: 0 <= i < j < |jar| && jar[i].name == name ==> jar[j].name != name
  }

  /** Writing a well-formed cookie keeps the jar well formed and leaves
      at most one cookie of its name where there was at most one. */
  lemma StoreKeepsJar(jar: seq<Cookie>, name: string, value: string)
    requires WellFormed(jar) && NameOk(name) && ValueOk(value)
    ensures WellFormed(Store(jar, name, value))
    ensures AtMostOne(jar, name) ==> AtMostOne(Store(jar, name, value), name)
  {
    var a, b := StoreShape(jar, name, value);
    var r := Store(jar, name, value);
    forall k | 0 <= k < |r|
      ensures NameOk(r[k].name) && ValueOk(r[k].value)
    {
      if k < |a| {
        assert r[k] == a[k];
      } else if k > |a| {
        assert r[k] == b[k - |a| - 1];
      }
    }
    if AtMostOne(jar, name) {
      assert forall k :: 0 <= k < |a| ==> r[k] == a[k];
      forall i, j | 0 <= i < j < |r| && r[i].name == name
        ensures r[j].name != name
      {
        assert r[j] == b[j - |a| - 1];
      }
    }
  }

  /** A second write of the same name overwrites the first. */
  lemma {:induction false} StoreTwice(jar: seq<Cookie>, name: string, v1: string, v2: string)
    ensures Store(Store(jar, name, v1), name, v2) == Store(jar, name, v2)
  {
    if jar != [] && jar[0].name != name {
      StoreTwice(jar[1..], name, v1, v2);
      var s1 := Store(jar, name, v1);
      assert s1[0] == jar[0] && s1[1..] == Store(jar[1..], name, v1);
    }
  }

  /** A stored cookie reads back through `getCookie`, provided no other
      cookie of the same name was there. */
  lemma StoredCookieReadsBack(jar: seq<Cookie>, name: string, value: string)
    requires WellFormed(jar) && NameOk(name) && ValueOk(value) && value != ""
    requires AtMostOne(jar, name)
    ensures GetCookie(Serialize(Store(jar, name, value)), name) == Some(value)
  {
    var a, b := StoreShape(jar, name, value);
    GetCookieReadsUnique(a, value, b, name);
  }

  /** A stored cookie reads back through the first-match reader when no
      other cookie of the name was there: the write replaced the only one,
      or added it. */
  lemma StoredCookieReadsFirst(jar: seq<Cookie>, name: string, value: string)
    requires WellFormed(jar) && NameOk(name) && ValueOk(value)
    ensures AtMostOne(jar, name) ==> FirstCookie(Serialize(Store(jar, name, value)), name) == Some(value)
  {
    var a, b := StoreShape(jar, name, value);
    FirstCookieReadsFirst(a, value, b, name);
  }

  /** On a jar holding two cookies of one name the two readers part ways:
      `getCookie` finds nothing, the first-match reader finds the first. */
  lemma ReadersDisagreeOnDuplicates(a: seq<Cookie>, v1: string, b: seq<Cookie>, v2: string, c: seq<Cookie>,
                                    name: string)
    requires WellFormed(a) && WellFormed(b) && WellFormed(c) && NoneNamed(a, name) && NoneNamed(b, name)
    requires NameOk(name) && ValueOk(v1) && ValueOk(v2)
    ensures GetCookie(Serialize(a + [Cookie(name, v1)] + b + [Cookie(name, v2)] + c), name).None?
    ensures FirstCookie(Serialize(a + [Cookie(name, v1)] + b + [Cookie(name, v2)] + c), name) == Some(v1)
  {
    GetCookieRejectsDuplicates(a, v1, b, v2, c, name);
    var rest := b + [Cookie(name, v2)] + c;
    assert a + [Cookie(name, v1)] + b + [Cookie(name, v2)] + c == a + [Cookie(name, v1)] + rest;
    assert WellFormed(rest) by {
      forall k | 0 <= k < |rest|
        ensures NameOk(rest[k].name) && ValueOk(rest[k].value)
      {
        if k < |b| {
          assert rest[k] == b[k];
        } else if k > |b| {
          assert rest[k] == c[k - |b| - 1];
        }
      }
    }
    FirstCookieReadsFirst(a, v1, rest, name);
  }
}
