/** The storage document (internal/auth/storage): cookies and account metadata between their
    JSON tree and their typed form. */
module Storage {
  import opened Text
  import opened Json

  type int64 = x: int | -0x8000_0000_0000_0000 <= x < 0x8000_0000_0000_0000

  /** `expires` is None for a session cookie. */
  datatype Cookie = Cookie(
    name: string, value: string, domain: string, path: string, expires: Option<int64>,
    httpOnly: bool, secure: bool, sameSite: string, hostOnly: bool)

  datatype Account = Account(authUser: int64, email: string)

  /** `notebookLM` holds the in-band namespace, None when absent. */
  datatype Storage = Storage(cookies: seq<Cookie>, notebookLM: Option<Account>)

  datatype CookieWire = CookieWire(
    name: string, value: string, domain: string, path: string, expires: int64,
    httpOnly: bool, secure: bool, sameSite: string, hostOnly: bool)

  datatype View = View(cookies: seq<CookieWire>, notebookLM: Option<Account>)

  datatype Error = TypeMismatch

  const SESSION: int64 := -1

  // ----- storage.go: between Storage and its wire view

  function ToWireCookie(c: Cookie): CookieWire {
    CookieWire(c.name, c.value, c.domain, c.path, if c.expires.Some? then c.expires.value else SESSION,
               c.httpOnly, c.secure, c.sameSite, c.hostOnly)
  }

  function FromWireCookie(w: CookieWire): Cookie {
    Cookie(w.name, w.value, w.domain, w.path, Some(w.expires), w.httpOnly, w.secure, w.sameSite, w.hostOnly)
  }

  function Canonical(sameSite: string): string {
    var low := ToLower(sameSite);
    if low == "strict" then "Strict" else if low == "lax" then "Lax" else if low == "none" then "None" else ""
  }

  /** `s` is `low`, which is in lower case, up to case. */
  predicate Spells(s: string, low: string) {
    |s| == |low| && forall i :: 0 <= i < |s| ==>
      var c, l := s[i] as int, low[i] as int;
      c == l || (65 <= c <= 90 && c + 32 == l) || (c == 0x130 && l == 105) || (c == 0x212A && l == 107)
  }

  /** Any spelling of the three values reads as its canonical one, and all else as none. */
  predicate SpelledAs(s: string, r: string) {
    && (r == "Strict" <==> Spells(s, "strict")) && (r == "Lax" <==> Spells(s, "lax")) && (r == "None" <==> Spells(s, "none"))
    && r in {"Strict", "Lax", "None", ""}
  }

  lemma SpellsIff(s: string, low: string)
    requires forall i :: 0 <= i < |low| ==> 'a' <= low[i] <= 'z'
    ensures ToLower(s) == low <==> Spells(s, low)
  {
    if |s| == |low| {
      forall i | 0 <= i < |s|
        ensures ToLower(s)[i] == low[i] <==>
                  var c, l := s[i] as int, low[i] as int;
                  c == l || (65 <= c <= 90 && c + 32 == l) || (c == 0x130 && l == 105) || (c == 0x212A && l == 107)
      {
      }
      hide ToLower;
      if Spells(s, low) {
        assert forall i :: 0 <= i < |s| ==> ToLower(s)[i] == low[i];
      }
    }
  }

  lemma SameSiteSpelled(s: string)
    ensures SpelledAs(s, Canonical(s))
  {
    SpellsIff(s, "strict");
    SpellsIff(s, "lax");
    SpellsIff(s, "none");
    hide Spells, ToLower;
  }

  /** What normalizeCookieAttributes makes of one cookie. */
  function Normalized(c: Cookie): Cookie {
    c.(expires := if c.expires == Some(SESSION) then None else c.expires, sameSite := Canonical(c.sameSite))
  }

  method ToWireView(s: Storage) returns (v: View)
    ensures v == View(MapSeq(ToWireCookie, s.cookies), s.notebookLM)
  {
    var wires: seq<CookieWire> := [];
    for i := 0 to |s.cookies|
      invariant |wires| == i && forall k :: 0 <= k < i ==> wires[k] == ToWireCookie(s.cookies[k])
    {
      var c := s.cookies[i];
      var expires: int64 := SESSION;
      if c.expires.Some? {
        expires := c.expires.value;
      }
      wires := wires + [CookieWire(c.name, c.value, c.domain, c.path, expires, c.httpOnly, c.secure, c.sameSite, c.hostOnly)];
    }
    return View(wires, s.notebookLM);
  }

  method FromWireView(v: View) returns (s: Storage)
    ensures s == Storage(MapSeq(FromWireCookie, v.cookies), v.notebookLM)
  {
    var cookies: seq<Cookie> := [];
    for i := 0 to |v.cookies|
      invariant |cookies| == i && forall k :: 0 <= k < i ==> cookies[k] == FromWireCookie(v.cookies[k])
    {
      var w := v.cookies[i];
      cookies := cookies
        + [Cookie(w.name, w.value, w.domain, w.path, Some(w.expires), w.httpOnly, w.secure, w.sameSite, w.hostOnly)];
    }
    return Storage(cookies, v.notebookLM);
  }

  /** normalizeCookieAttributes rewrites its rows in place. */
  method NormalizeCookieAttributes(rows: array<Cookie>)
    modifies rows
    ensures rows[..] == MapSeq(Normalized, old(rows[..]))
  {
    for i := 0 to rows.Length
      invariant forall k :: 0 <= k < i ==> rows[k] == Normalized(old(rows[k]))
      invariant forall k :: i <= k < rows.Length ==> rows[k] == old(rows[k])
    {
      if rows[i].expires == Some(SESSION) {
        rows[i] := rows[i].(expires := None);
      }
      if rows[i].sameSite != "" {
        var low := ToLower(rows[i].sameSite);
        if low == "strict" {
          rows[i] := rows[i].(sameSite := "Strict");
        } else if low == "lax" {
          rows[i] := rows[i].(sameSite := "Lax");
        } else if low == "none" {
          rows[i] := rows[i].(sameSite := "None");
        } else {
          rows[i] := rows[i].(sameSite := "");
        }
      }
    }
  }

  // ----- the typed encoding and decoding of the JSON package

  predicate IsZero(j: Json) { j == JStr("") || j == JBool(false) || j == JNull }

  /** The fields of a struct, without the `omitempty` ones that hold their zero value. */
  function Struct(all: map<string, Json>, omitEmpty: set<string>): map<string, Json> {
    map k | k in all && !(k in omitEmpty && IsZero(all[k])) :: all[k]
  }

  /** The fields of a cookie row before `omitempty`. */
  function RowFields(w: CookieWire): map<string, Json> {
    map["name" := JStr(w.name), "value" := JStr(w.value), "domain" := JStr(w.domain), "path" := JStr(w.path),
        "expires" := JInt(w.expires), "httpOnly" := JBool(w.httpOnly), "secure" := JBool(w.secure),
        "sameSite" := JStr(w.sameSite), "hostOnly" := JBool(w.hostOnly)]
  }

  const OMIT_EMPTY := {"domain", "path", "httpOnly", "secure", "sameSite", "hostOnly"}

  function EncodeCookie(w: CookieWire): Json { JObj(Struct(RowFields(w), OMIT_EMPTY)) }

  function EncodeAccount(a: Account): Json {
    JObj(map["account" := JObj(Struct(map["authuser" := JInt(a.authUser), "email" := JStr(a.email)], {"email"}))])
  }

  function EncodeView(v: View): Json {
    JObj(Struct(
      map["cookies" := JArr(MapSeq(EncodeCookie, v.cookies)),
          "notebooklm" := if v.notebookLM.Some? then EncodeAccount(v.notebookLM.value) else JNull],
      {"notebooklm"}))
  }

  /** Decoding into a field leaves its zero value on null and fails on another type. */
  predicate IsString(j: Json) { j.JNull? || j.JStr? }
  predicate IsBool(j: Json) { j.JNull? || j.JBool? }
  predicate IsInt64(j: Json) { j.JNull? || (j.JInt? && -0x8000_0000_0000_0000 <= j.n < 0x8000_0000_0000_0000) }

  function AsString(j: Json): string { if j.JStr? then j.s else "" }
  function AsBool(j: Json): bool { j.JBool? && j.b }
  function AsInt64(j: Json): int64 { if j.JInt? && IsInt64(j) then j.n else 0 }

  predicate IsCookie(m: map<string, Json>) {
    && IsString(Get(m, "name")) && IsString(Get(m, "value")) && IsString(Get(m, "domain")) && IsString(Get(m, "path"))
    && IsInt64(Get(m, "expires")) && IsBool(Get(m, "httpOnly")) && IsBool(Get(m, "secure"))
    && IsString(Get(m, "sameSite")) && IsBool(Get(m, "hostOnly"))
  }

  function DecodeCookie(j: Json): Result<CookieWire, Error> {
    if j.JNull? then Ok(CookieWire("", "", "", "", 0, false, false, "", false))
    else if !j.JObj? || !IsCookie(j.fields) then Err(TypeMismatch)
    else
      var m := j.fields;
      Ok(CookieWire(AsString(Get(m, "name")), AsString(Get(m, "value")), AsString(Get(m, "domain")), AsString(Get(m, "path")),
                    AsInt64(Get(m, "expires")), AsBool(Get(m, "httpOnly")), AsBool(Get(m, "secure")),
                    AsString(Get(m, "sameSite")), AsBool(Get(m, "hostOnly"))))
  }

  function DecodeAccount(j: Json): Result<Account, Error> {
    if j.JNull? then Ok(Account(0, ""))
    else if !j.JObj? || !IsInt64(Get(j.fields, "authuser")) || !IsString(Get(j.fields, "email")) then Err(TypeMismatch)
    else Ok(Account(AsInt64(Get(j.fields, "authuser")), AsString(Get(j.fields, "email"))))
  }

  function DecodeNamespace(j: Json): Result<Option<Account>, Error> {
    if j.JNull? then Ok(None)
    else if !j.JObj? then Err(TypeMismatch)
    else
      var a := DecodeAccount(Get(j.fields, "account"));
      if a.Err? then Err(a.error) else Ok(Some(a.value))
  }

  function DecodeAll(items: seq<Json>): Result<seq<CookieWire>, Error> {
    if items == [] then Ok([])
    else
      var init := DecodeAll(items[..|items| - 1]);
      var last := DecodeCookie(items[|items| - 1]);
      if init.Err? then Err(init.error) else if last.Err? then Err(last.error) else Ok(init.value + [last.value])
  }

  function DecodeCookies(j: Json): Result<seq<CookieWire>, Error> {
    if j.JNull? then Ok([]) else if j.JArr? then DecodeAll(j.items) else Err(TypeMismatch)
  }

  function DecodeView(j: Json): Result<View, Error> {
    if j.JNull? then Ok(View([], None))
    else if !j.JObj? then Err(TypeMismatch)
    else
      var c, n := DecodeCookies(Get(j.fields, "cookies")), DecodeNamespace(Get(j.fields, "notebooklm"));
      if c.Err? then Err(c.error) else if n.Err? then Err(n.error) else Ok(View(c.value, n.value))
  }

  // ----- normalizers.go: the pass over the untyped tree

  /** The legacy spelling stands in only for an absent `expires`. */
  function Respelled(m: map<string, Json>): map<string, Json> {
    if "expires" !in m && "expirationDate" in m then (m - {"expirationDate"})["expires" := m["expirationDate"]] else m
  }

  /** The object rows, respelled, in order. */
  function Rows(items: seq<Json>): seq<Json> {
    if items == [] then []
    else
      var last := items[|items| - 1];
      Rows(items[..|items| - 1]) + if last.JObj? then [JObj(Respelled(last.fields))] else []
  }

  lemma RowsNext(rows: seq<Json>, i: nat)
    requires i < |rows|
    ensures Rows(rows[..i + 1]) == Rows(rows[..i]) + if rows[i].JObj? then [JObj(Respelled(rows[i].fields))] else []
  {
    assert rows[..i + 1][..i] == rows[..i];
  }

  method NormalizeCookieRows(rows: seq<Json>) returns (out: seq<Json>)
    ensures out == Rows(rows)
  {
    out := [];
    for i := 0 to |rows|
      invariant out == Rows(rows[..i])
    {
      RowsNext(rows, i);
      if !rows[i].JObj? {
        assert out + [] == out;
        continue;
      }
      var m := rows[i].fields;
      if "expires" !in m {
        if "expirationDate" in m {
          m := m["expires" := m["expirationDate"]];
          m := m - {"expirationDate"};
        }
      }
      assert m == Respelled(rows[i].fields);
      out := out + [JObj(m)];
    }
    assert rows[..|rows|] == rows;
  }

  function TopLevel(v: Json): Json {
    match v
    case JArr(items) => JObj(map["cookies" := JArr(Rows(items))])
    case JObj(fields) =>
      var kept := fields - {"origins"};
      JObj(if "cookies" in kept && kept["cookies"].JArr? then kept["cookies" := JArr(Rows(kept["cookies"].items))] else kept)
    case _ => v
  }

  method NormalizeTopLevel(v: Json) returns (r: Json)
    ensures r == TopLevel(v)
  {
    if v.JArr? {
      var rows := NormalizeCookieRows(v.items);
      return JObj(map["cookies" := JArr(rows)]);
    } else if v.JObj? {
      var out := v.fields - {"origins"};
      if "cookies" in out && out["cookies"].JArr? {
        var rows := NormalizeCookieRows(out["cookies"].items);
        out := out["cookies" := JArr(rows)];
      }
      return JObj(out);
    }
    return v;
  }

  // ----- Marshal and Unmarshal

  function Encoded(s: Storage): Json { EncodeView(View(MapSeq(ToWireCookie, s.cookies), s.notebookLM)) }

  function Decoded(tree: Json): Result<Storage, Error> {
    var v := DecodeView(TopLevel(tree));
    if v.Err? then Err(v.error)
    else Ok(Storage(MapSeq(Normalized, MapSeq(FromWireCookie, v.value.cookies)), v.value.notebookLM))
  }

  method Marshal(s: Storage) returns (tree: Json)
    ensures tree == Encoded(s)
  {
    var view := ToWireView(s);
    return EncodeView(view);
  }

  method Unmarshal(tree: Json) returns (r: Result<Storage, Error>)
    ensures r == Decoded(tree)
  {
    var normalized := NormalizeTopLevel(tree);
    var view := DecodeView(normalized);
    if view.Err? {
      return Err(view.error);
    }
    var s := FromWireView(view.value);
    var rows := new Cookie[|s.cookies|](i requires 0 <= i < |s.cookies| => s.cookies[i]);
    assert rows[..] == s.cookies;
    NormalizeCookieAttributes(rows);
    return Ok(s.(cookies := rows[..]));
  }

  // ----- round trips

  /** Session expiry is None, never -1, and sameSite is absent or canonical. */
  predicate NormalCookie(c: Cookie) {
    c.expires != Some(SESSION) && (c.sameSite == "" || c.sameSite == "Strict" || c.sameSite == "Lax" || c.sameSite == "None")
  }

  predicate NormalForm(s: Storage) { forall i :: 0 <= i < |s.cookies| ==> NormalCookie(s.cookies[i]) }

  lemma StringField(all: map<string, Json>, omitEmpty: set<string>, key: string, s: string)
    requires key in all && all[key] == JStr(s)
    ensures var j := Get(Struct(all, omitEmpty), key);
            IsString(j) && AsString(j) == s
  {
  }

  lemma BoolField(all: map<string, Json>, omitEmpty: set<string>, key: string, b: bool)
    requires key in all && all[key] == JBool(b)
    ensures var j := Get(Struct(all, omitEmpty), key);
            IsBool(j) && AsBool(j) == b
  {
  }

  lemma RowStrings(w: CookieWire, omit: set<string>)
    ensures var m := Struct(RowFields(w), omit);
            && IsString(Get(m, "name")) && AsString(Get(m, "name")) == w.name
            && IsString(Get(m, "value")) && AsString(Get(m, "value")) == w.value
            && IsString(Get(m, "domain")) && AsString(Get(m, "domain")) == w.domain
            && IsString(Get(m, "path")) && AsString(Get(m, "path")) == w.path
            && IsString(Get(m, "sameSite")) && AsString(Get(m, "sameSite")) == w.sameSite
  {
    hide Get, AsString, IsString, Struct;
    var all := RowFields(w);
    StringField(all, omit, "name", w.name);
    StringField(all, omit, "value", w.value);
    StringField(all, omit, "domain", w.domain);
    StringField(all, omit, "path", w.path);
    StringField(all, omit, "sameSite", w.sameSite);
  }

  lemma RowFlags(w: CookieWire, omit: set<string>)
    ensures var m := Struct(RowFields(w), omit);
            && IsBool(Get(m, "httpOnly")) && AsBool(Get(m, "httpOnly")) == w.httpOnly
            && IsBool(Get(m, "secure")) && AsBool(Get(m, "secure")) == w.secure
            && IsBool(Get(m, "hostOnly")) && AsBool(Get(m, "hostOnly")) == w.hostOnly
  {
    hide Get, AsBool, IsBool, Struct;
    var all := RowFields(w);
    BoolField(all, omit, "httpOnly", w.httpOnly);
    BoolField(all, omit, "secure", w.secure);
    BoolField(all, omit, "hostOnly", w.hostOnly);
  }

  lemma RowExpiry(w: CookieWire, omit: set<string>)
    requires "expires" !in omit
    ensures "expires" in Struct(RowFields(w), omit) && Get(Struct(RowFields(w), omit), "expires") == JInt(w.expires)
  {
  }

  lemma CookieCodec(w: CookieWire)
    ensures EncodeCookie(w).JObj? && Respelled(EncodeCookie(w).fields) == EncodeCookie(w).fields
    ensures DecodeCookie(EncodeCookie(w)) == Ok(w)
  {
    hide Get, AsString, AsBool, IsString, IsBool, Struct, RowFields;
    RowStrings(w, OMIT_EMPTY);
    RowFlags(w, OMIT_EMPTY);
    RowExpiry(w, OMIT_EMPTY);
  }

  lemma {:induction false} RowsCodec(ws: seq<CookieWire>)
    ensures Rows(MapSeq(EncodeCookie, ws)) == MapSeq(EncodeCookie, ws)
    ensures DecodeAll(MapSeq(EncodeCookie, ws)) == Ok(ws)
    decreases |ws|
  {
    hide EncodeCookie, DecodeCookie, Respelled;
    if ws != [] {
      var n := |ws| - 1;
      RowsCodec(ws[..n]);
      CookieCodec(ws[n]);
      var all := MapSeq(EncodeCookie, ws);
      assert all[..n] == MapSeq(EncodeCookie, ws[..n]);
      assert all == all[..n] + [all[n]];
      assert ws == ws[..n] + [ws[n]];
    }
  }

  lemma NamespaceCodec(a: Account)
    ensures DecodeNamespace(EncodeAccount(a)) == Ok(Some(a))
  {
  }

  lemma ViewCodec(v: View)
    ensures TopLevel(EncodeView(v)) == EncodeView(v)
    ensures DecodeView(EncodeView(v)) == Ok(v)
  {
    hide EncodeCookie, EncodeAccount, DecodeNamespace, DecodeAll, Rows;
    RowsCodec(v.cookies);
    NamespaceRoundTrip(v.notebookLM);
    var fields := EncodeView(v).fields;
    assert "cookies" in fields && fields["cookies"] == JArr(MapSeq(EncodeCookie, v.cookies));
    assert fields - {"origins"} == fields;
    assert fields["cookies" := fields["cookies"]] == fields;
    EncodedNamespace(v);
  }

  lemma EncodedNamespace(v: View)
    ensures DecodeNamespace(Get(EncodeView(v).fields, "notebooklm")) == Ok(v.notebookLM)
  {
    hide DecodeNamespace, EncodeAccount;
    NamespaceRoundTrip(v.notebookLM);
  }

  lemma NamespaceRoundTrip(n: Option<Account>)
    ensures DecodeNamespace(if n.Some? then EncodeAccount(n.value) else JNull) == Ok(n)
    ensures n.Some? ==> !IsZero(EncodeAccount(n.value))
  {
    if n.Some? {
      NamespaceCodec(n.value);
    }
  }

  lemma CookieRoundTrip(c: Cookie)
    ensures Normalized(FromWireCookie(ToWireCookie(c))) == Normalized(c)
    ensures NormalCookie(Normalized(c))
    ensures Normalized(c) == c <==> NormalCookie(c)
  {
    CanonicalFixed(c.sameSite);
  }

  lemma CanonicalFixed(s: string)
    ensures Canonical(s) == "" || Canonical(s) == "Strict" || Canonical(s) == "Lax" || Canonical(s) == "None"
    ensures Canonical(s) == s <==> s == "" || s == "Strict" || s == "Lax" || s == "None"
  {
    assert ToLower("Strict") == "strict" && ToLower("Lax") == "lax" && ToLower("None") == "none" && ToLower("") == "";
  }

  /** Reading back what was written gives the storage with every cookie normalized, and the
      storage itself exactly when it was in normal form. */
  lemma RoundTrip(s: Storage)
    ensures Decoded(Encoded(s)) == Ok(Storage(MapSeq(Normalized, s.cookies), s.notebookLM))
    ensures Decoded(Encoded(s)) == Ok(s) <==> NormalForm(s)
  {
    hide EncodeView, TopLevel, DecodeView, Normalized, NormalCookie, ToWireCookie, FromWireCookie;
    ViewCodec(View(MapSeq(ToWireCookie, s.cookies), s.notebookLM));
    forall i | 0 <= i < |s.cookies|
      ensures Normalized(FromWireCookie(ToWireCookie(s.cookies[i]))) == Normalized(s.cookies[i])
      ensures Normalized(s.cookies[i]) == s.cookies[i] <==> NormalCookie(s.cookies[i])
    {
      CookieRoundTrip(s.cookies[i]);
    }
    assert MapSeq(Normalized, MapSeq(FromWireCookie, MapSeq(ToWireCookie, s.cookies))) == MapSeq(Normalized, s.cookies);
    assert MapSeq(Normalized, s.cookies) == s.cookies <==> NormalForm(s);
  }

  /** Whatever is accepted is read into normal form, which writing and reading again keeps. */
  lemma DecodedIsStable(tree: Json)
    requires Decoded(tree).Ok?
    ensures NormalForm(Decoded(tree).value)
    ensures Decoded(Encoded(Decoded(tree).value)) == Decoded(tree)
  {
    hide Encoded, DecodeView, TopLevel, Normalized, NormalCookie;
    var s := Decoded(tree).value;
    var view := DecodeView(TopLevel(tree)).value;
    forall i | 0 <= i < |s.cookies| ensures NormalCookie(s.cookies[i]) {
      CookieRoundTrip(FromWireCookie(view.cookies[i]));
    }
    RoundTrip(s);
  }

  // ----- what reading tolerates

  /** A bare array reads as the document that wraps it. */
  lemma BareArrayIsWrapped(items: seq<Json>)
    ensures Decoded(JArr(items)) == Decoded(JObj(map["cookies" := JArr(items)]))
  {
    var m := map["cookies" := JArr(items)];
    assert m - {"origins"} == m;
    assert m["cookies" := JArr(Rows(items))] == map["cookies" := JArr(Rows(items))];
  }

  /** `origins` never affects the result, whatever it holds. */
  lemma OriginsIgnored(fields: map<string, Json>, origins: Json)
    ensures Decoded(JObj(fields["origins" := origins])) == Decoded(JObj(fields - {"origins"}))
  {
    assert fields["origins" := origins] - {"origins"} == fields - {"origins"};
    assert fields - {"origins"} - {"origins"} == fields - {"origins"};
  }

  function ObjectRows(items: seq<Json>): seq<map<string, Json>> {
    if items == [] then []
    else
      var last := items[|items| - 1];
      ObjectRows(items[..|items| - 1]) + if last.JObj? then [last.fields] else []
  }

  predicate TextOrAbsent(m: map<string, Json>, k: string) { k in m ==> m[k].JNull? || m[k].JStr? }

  predicate FlagOrAbsent(m: map<string, Json>, k: string) { k in m ==> m[k].JNull? || m[k].JBool? }

  predicate Int64OrAbsent(m: map<string, Json>, k: string) {
    k in m ==> m[k].JNull? || (m[k].JInt? && -0x8000_0000_0000_0000 <= m[k].n < 0x8000_0000_0000_0000)
  }

  function TextAt(m: map<string, Json>, k: string): string { if k in m && m[k].JStr? then m[k].s else "" }

  predicate FlagAt(m: map<string, Json>, k: string) { k in m && m[k] == JBool(true) }

  function NumberAt(m: map<string, Json>, k: string): int { if k in m && m[k].JInt? then m[k].n else 0 }

  /** Where a row's expiry stands: under the legacy spelling only when there is no other. */
  function ExpiryKey(m: map<string, Json>): string { if "expires" in m then "expires" else "expirationDate" }

  /** A row's typed fields are well typed; unknown fields do not matter. */
  predicate ReadableRow(m: map<string, Json>) {
    && TextOrAbsent(m, "name") && TextOrAbsent(m, "value") && TextOrAbsent(m, "domain") && TextOrAbsent(m, "path")
    && Int64OrAbsent(m, ExpiryKey(m)) && FlagOrAbsent(m, "httpOnly") && FlagOrAbsent(m, "secure")
    && TextOrAbsent(m, "sameSite") && FlagOrAbsent(m, "hostOnly")
  }

  predicate IsSession(m: map<string, Json>) { ExpiryKey(m) in m && m[ExpiryKey(m)] == JInt(-1) }

  /** How a cookie reflects its row. A missing or null expiry reads as the epoch; only the
      integer -1 makes a session cookie. */
  predicate ReadsAs(m: map<string, Json>, c: Cookie) {
    && c.name == TextAt(m, "name") && c.value == TextAt(m, "value")
    && c.domain == TextAt(m, "domain") && c.path == TextAt(m, "path")
    && c.secure == FlagAt(m, "secure") && c.httpOnly == FlagAt(m, "httpOnly")
    && c.hostOnly == FlagAt(m, "hostOnly")
    && SpelledAs(TextAt(m, "sameSite"), c.sameSite)
    && (c.expires.None? <==> IsSession(m))
    && (c.expires.Some? ==> c.expires.value == NumberAt(m, ExpiryKey(m)))
  }

  function Finished(w: CookieWire): Cookie { Normalized(FromWireCookie(w)) }

  lemma RowDecodes(m: map<string, Json>)
    ensures DecodeCookie(JObj(Respelled(m))).Ok? <==> ReadableRow(m)
    ensures ReadableRow(m) ==> ReadsAs(m, Finished(DecodeCookie(JObj(Respelled(m))).value))
  {
    SameSiteSpelled(TextAt(m, "sameSite"));
    var r := Respelled(m);
    TextReads(m, "name");
    TextReads(m, "value");
    TextReads(m, "domain");
    TextReads(m, "path");
    TextReads(m, "sameSite");
    FlagReads(m, "httpOnly");
    FlagReads(m, "secure");
    FlagReads(m, "hostOnly");
    ExpiryReads(m);
    hide Canonical, SpelledAs, Respelled, Get, IsString, AsString, IsBool, AsBool, IsInt64, AsInt64;
    hide TextOrAbsent, TextAt, FlagOrAbsent, FlagAt, Int64OrAbsent, NumberAt, ExpiryKey, IsSession;
  }

  lemma TextReads(m: map<string, Json>, k: string)
    requires k != "expires" && k != "expirationDate"
    ensures var j := Get(Respelled(m), k);
            (IsString(j) <==> TextOrAbsent(m, k)) && AsString(j) == TextAt(m, k)
  {
  }

  lemma FlagReads(m: map<string, Json>, k: string)
    requires k != "expires" && k != "expirationDate"
    ensures var j := Get(Respelled(m), k);
            (IsBool(j) <==> FlagOrAbsent(m, k)) && AsBool(j) == FlagAt(m, k)
  {
  }

  lemma ExpiryReads(m: map<string, Json>)
    ensures var j := Get(Respelled(m), "expires");
            && (IsInt64(j) <==> Int64OrAbsent(m, ExpiryKey(m)))
            && (IsInt64(j) ==> AsInt64(j) as int == NumberAt(m, ExpiryKey(m)))
            && (IsInt64(j) ==> (AsInt64(j) == SESSION <==> IsSession(m)))
  {
  }

  ghost predicate AllReadable(rows: seq<map<string, Json>>) { forall i :: 0 <= i < |rows| ==> ReadableRow(rows[i]) }

  ghost predicate AllReadAs(rows: seq<map<string, Json>>, ws: seq<CookieWire>) {
    |ws| == |rows| && forall i :: 0 <= i < |rows| ==> ReadsAs(rows[i], Finished(ws[i]))
  }

  lemma ReadableAppend(rows: seq<map<string, Json>>, m: map<string, Json>)
    ensures AllReadable(rows + [m]) <==> AllReadable(rows) && ReadableRow(m)
  {
    hide ReadableRow;
    assert (rows + [m])[|rows|] == m;
    assert forall i :: 0 <= i < |rows| ==> (rows + [m])[i] == rows[i];
  }

  lemma ReadAsAppend(rows: seq<map<string, Json>>, ws: seq<CookieWire>, m: map<string, Json>, w: CookieWire)
    requires AllReadAs(rows, ws) && ReadsAs(m, Finished(w))
    ensures AllReadAs(rows + [m], ws + [w])
  {
    hide ReadsAs, Finished;
  }

  lemma DecodeAllAppend(items: seq<Json>, j: Json)
    ensures var before, last := DecodeAll(items), DecodeCookie(j);
            DecodeAll(items + [j]) ==
              if before.Err? then Err(before.error) else if last.Err? then Err(last.error) else Ok(before.value + [last.value])
  {
    hide DecodeCookie;
    assert (items + [j])[..|items|] == items;
  }

  lemma {:induction false} RowsDecode(items: seq<Json>)
    ensures DecodeAll(Rows(items)).Ok? <==> AllReadable(ObjectRows(items))
    ensures DecodeAll(Rows(items)).Ok? ==> AllReadAs(ObjectRows(items), DecodeAll(Rows(items)).value)
    decreases |items|
  {
    hide ReadsAs, ReadableRow, DecodeCookie, DecodeAll, Finished, Respelled, AllReadable, AllReadAs;
    if items == [] {
      NoRows();
    } else {
      var n := |items| - 1;
      RowsDecode(items[..n]);
      if items[n].JObj? {
        var m := items[n].fields;
        RowDecodes(m);
        DecodeAllAppend(Rows(items[..n]), JObj(Respelled(m)));
        ReadableAppend(ObjectRows(items[..n]), m);
        if DecodeAll(Rows(items)).Ok? {
          ReadAsAppend(ObjectRows(items[..n]), DecodeAll(Rows(items[..n])).value, m, DecodeCookie(JObj(Respelled(m))).value);
        }
      } else {
        assert Rows(items) == Rows(items[..n]);
        assert ObjectRows(items) == ObjectRows(items[..n]);
      }
    }
  }

  lemma NoRows()
    ensures DecodeAll([]) == Ok([]) && AllReadable([]) && AllReadAs([], [])
  {
  }

  /** The namespace is absent, null, or an object whose account, if any, is well typed. */
  predicate ReadableNamespace(m: map<string, Json>) {
    "notebooklm" in m && !m["notebooklm"].JNull? ==>
      && m["notebooklm"].JObj?
      && var n := m["notebooklm"].fields;
         "account" in n && !n["account"].JNull? ==>
           n["account"].JObj? && Int64OrAbsent(n["account"].fields, "authuser") && TextOrAbsent(n["account"].fields, "email")
  }

  /** The account of the namespace; an empty one where the namespace has none. */
  function NamespaceAt(m: map<string, Json>): (int, string) {
    if "notebooklm" !in m || !m["notebooklm"].JObj? then (0, "")
    else
      var n := m["notebooklm"].fields;
      if "account" !in n || !n["account"].JObj? then (0, "")
      else (NumberAt(n["account"].fields, "authuser"), TextAt(n["account"].fields, "email"))
  }

  lemma NamespaceReads(m: map<string, Json>)
    ensures DecodeNamespace(Get(m, "notebooklm")).Ok? <==> ReadableNamespace(m)
    ensures ReadableNamespace(m) ==>
              var r := DecodeNamespace(Get(m, "notebooklm")).value;
              && (r.None? <==> "notebooklm" !in m || m["notebooklm"].JNull?)
              && (r.Some? ==> (r.value.authUser as int, r.value.email) == NamespaceAt(m))
  {
  }

  /** A document is accepted exactly when its `cookies` is absent, null or an array whose
      object rows are all well typed, and its namespace is well typed. Its cookies are then
      the object rows, in order; rows that are not objects are dropped. */
  lemma DocumentReads(fields: map<string, Json>)
    ensures var c := if "cookies" in fields then fields["cookies"] else JNull;
            var rows := if c.JArr? then ObjectRows(c.items) else [];
            && (Decoded(JObj(fields)).Ok? <==> (c.JNull? || c.JArr?) && AllReadable(rows) && ReadableNamespace(fields))
            && (Decoded(JObj(fields)).Ok? ==>
                  var s := Decoded(JObj(fields)).value;
                  && |s.cookies| == |rows| && (forall i :: 0 <= i < |rows| ==> ReadsAs(rows[i], s.cookies[i]))
                  && (s.notebookLM.None? <==> "notebooklm" !in fields || fields["notebooklm"].JNull?)
                  && (s.notebookLM.Some? ==> (s.notebookLM.value.authUser as int, s.notebookLM.value.email) == NamespaceAt(fields)))
  {
    NamespaceReads(fields);
    hide ReadsAs, ReadableRow, AllReadable, DecodeNamespace, Normalized, FromWireCookie, DecodeAll, Rows, ReadableNamespace, NamespaceAt;
    NoRows();
    var c := if "cookies" in fields then fields["cookies"] else JNull;
    var top := TopLevel(JObj(fields)).fields;
    assert Get(top, "notebooklm") == Get(fields, "notebooklm");
    if c.JArr? {
      RowsDecode(c.items);
      assert Get(top, "cookies") == JArr(Rows(c.items));
    } else {
      assert Get(top, "cookies") == c;
    }
  }

  /** The untyped pass: an array becomes the document that wraps its rows; an object loses
      `origins` and nothing else, and an array of cookies in it its rows that are no objects;
      anything else stays. */
  lemma TopLevelIs(v: Json)
    ensures v.JArr? ==> TopLevel(v).JObj? && TopLevel(v).fields.Keys == {"cookies"} && IsRows(v.items, TopLevel(v).fields["cookies"])
    ensures v.JObj? ==>
              && TopLevel(v).JObj? && TopLevel(v).fields.Keys == v.fields.Keys - {"origins"}
              && forall k :: k in v.fields && k != "origins" ==>
                   if k == "cookies" && v.fields[k].JArr? then IsRows(v.fields[k].items, TopLevel(v).fields[k])
                   else TopLevel(v).fields[k] == v.fields[k]
    ensures !v.JArr? && !v.JObj? ==> TopLevel(v) == v
  {
    if v.JArr? {
      RowsAre(v.items);
    } else if v.JObj? && "cookies" in v.fields && v.fields["cookies"].JArr? {
      RowsAre(v.fields["cookies"].items);
    }
    hide IsRows, Rows;
  }

  /** The object rows in order, each with at most its expiry under another name. */
  ghost predicate IsRows(items: seq<Json>, rows: Json) {
    && rows.JArr? && |rows.items| == |ObjectRows(items)|
    && forall i :: 0 <= i < |rows.items| ==> rows.items[i].JObj? && IsRow(ObjectRows(items)[i], rows.items[i].fields)
  }

  /** The legacy spelling is renamed when there is no other expiry, and nothing else. */
  predicate IsRow(m: map<string, Json>, r: map<string, Json>) {
    if "expires" in m || "expirationDate" !in m then r == m
    else
      && r.Keys == m.Keys - {"expirationDate"} + {"expires"} && r["expires"] == m["expirationDate"]
      && forall k :: k in m && k != "expirationDate" ==> r[k] == m[k]
  }

  lemma {:induction false} RowsAre(items: seq<Json>)
    ensures IsRows(items, JArr(Rows(items)))
    decreases |items|
  {
    if items != [] {
      var n := |items| - 1;
      RowsAre(items[..n]);
      if items[n].JObj? {
        RespelledIs(items[n].fields);
      }
      hide IsRow, Respelled;
    }
  }

  lemma RespelledIs(m: map<string, Json>)
    ensures IsRow(m, Respelled(m))
  {
  }

  /** A document that is null reads as empty; any other scalar is a type error. */
  lemma ScalarDocuments(j: Json)
    requires !j.JObj? && !j.JArr?
    ensures Decoded(j) == if j.JNull? then Ok(Storage([], None)) else Err(TypeMismatch)
  {
    assert MapSeq(FromWireCookie, []) == [] && MapSeq(Normalized, []) == [];
  }

  /** A written row always has a name, a value and an expiry, -1 for a session; every other
      field is there exactly when it is not empty or false. */
  lemma RowWritten(c: Cookie)
    ensures EncodeCookie(ToWireCookie(c)).JObj?
    ensures var m := EncodeCookie(ToWireCookie(c)).fields;
            && "name" in m && m["name"] == JStr(c.name) && "value" in m && m["value"] == JStr(c.value)
            && "expires" in m && m["expires"] == JInt(if c.expires.Some? then c.expires.value else -1)
            && WritesText(m, "domain", c.domain) && WritesText(m, "path", c.path) && WritesText(m, "sameSite", c.sameSite)
            && WritesFlag(m, "httpOnly", c.httpOnly) && WritesFlag(m, "secure", c.secure) && WritesFlag(m, "hostOnly", c.hostOnly)
            && m.Keys <= {"name", "value", "domain", "path", "expires", "httpOnly", "secure", "sameSite", "hostOnly"}
  {
    RowTextsWritten(ToWireCookie(c));
    RowFlagsWritten(ToWireCookie(c));
    StructKeeps(RowFields(ToWireCookie(c)), OMIT_EMPTY);
    hide Struct, WritesText, WritesFlag;
  }

  lemma RowTextsWritten(w: CookieWire)
    ensures var m := Struct(RowFields(w), OMIT_EMPTY);
            WritesText(m, "domain", w.domain) && WritesText(m, "path", w.path) && WritesText(m, "sameSite", w.sameSite)
  {
    var all := RowFields(w);
    hide Struct, WritesText;
    TextWritten(all, OMIT_EMPTY, "domain", w.domain);
    TextWritten(all, OMIT_EMPTY, "path", w.path);
    TextWritten(all, OMIT_EMPTY, "sameSite", w.sameSite);
  }

  lemma RowFlagsWritten(w: CookieWire)
    ensures var m := Struct(RowFields(w), OMIT_EMPTY);
            WritesFlag(m, "httpOnly", w.httpOnly) && WritesFlag(m, "secure", w.secure) && WritesFlag(m, "hostOnly", w.hostOnly)
  {
    var all := RowFields(w);
    hide Struct, WritesFlag;
    FlagWritten(all, OMIT_EMPTY, "httpOnly", w.httpOnly);
    FlagWritten(all, OMIT_EMPTY, "secure", w.secure);
    FlagWritten(all, OMIT_EMPTY, "hostOnly", w.hostOnly);
  }

  lemma StructKeeps(all: map<string, Json>, omit: set<string>)
    ensures Struct(all, omit).Keys <= all.Keys
    ensures forall k :: k in all && k !in omit ==> k in Struct(all, omit) && Struct(all, omit)[k] == all[k]
  {
  }

  lemma TextWritten(all: map<string, Json>, omit: set<string>, k: string, s: string)
    requires k in all && k in omit && all[k] == JStr(s)
    ensures WritesText(Struct(all, omit), k, s)
  {
  }

  lemma FlagWritten(all: map<string, Json>, omit: set<string>, k: string, b: bool)
    requires k in all && k in omit && all[k] == JBool(b)
    ensures WritesFlag(Struct(all, omit), k, b)
  {
  }

  predicate WritesText(m: map<string, Json>, k: string, s: string) {
    if s == "" then k !in m else k in m && m[k] == JStr(s)
  }

  predicate WritesFlag(m: map<string, Json>, k: string, b: bool) {
    if b then k in m && m[k] == JBool(true) else k !in m
  }

  /** A written document holds a row per cookie, in order, and the namespace exactly when
      there is one. */
  lemma DocumentWritten(s: Storage)
    ensures Encoded(s).JObj?
    ensures var m := Encoded(s).fields;
            && m.Keys == (if s.notebookLM.Some? then {"cookies", "notebooklm"} else {"cookies"})
            && m["cookies"].JArr? && |m["cookies"].items| == |s.cookies|
            && (forall i :: 0 <= i < |s.cookies| ==> m["cookies"].items[i] == EncodeCookie(ToWireCookie(s.cookies[i])))
            && (s.notebookLM.Some? ==>
                  var a := s.notebookLM.value;
                  && m["notebooklm"].JObj? && m["notebooklm"].fields.Keys == {"account"}
                  && m["notebooklm"].fields["account"].JObj?
                  && var f := m["notebooklm"].fields["account"].fields;
                     "authuser" in f && f["authuser"] == JInt(a.authUser) && WritesText(f, "email", a.email) && f.Keys <= {"authuser", "email"})
  {
    hide EncodeCookie, ToWireCookie;
  }

  /** What reading makes of a cookie that was written: -1 and none are both a session, the
      sameSite value gets its canonical spelling or goes, and all else stays. */
  lemma NormalizedIs(c: Cookie)
    ensures Normalized(c).expires == if c.expires == None || c.expires == Some(-1) then None else c.expires
    ensures SpelledAs(c.sameSite, Normalized(c).sameSite)
    ensures Normalized(c) == c.(expires := Normalized(c).expires, sameSite := Normalized(c).sameSite)
  {
    SameSiteSpelled(c.sameSite);
    hide SpelledAs, Canonical;
  }

  /** A row without an expiry is documented to be a session cookie. It is read as expiring at
      the epoch, and written back so; only the integer -1 makes a session cookie. */
  lemma SessionIff(m: map<string, Json>)
    requires ReadableRow(m)
    ensures Decoded(JArr([JObj(m)])).Ok?
    ensures var s := Decoded(JArr([JObj(m)])).value;
            && |s.cookies| == 1
            && (s.cookies[0].expires.None? <==> IsSession(m))
            && ((ExpiryKey(m) in m ==> m[ExpiryKey(m)].JNull?) ==> s.cookies[0].expires == Some(0) && ToWireCookie(s.cookies[0]).expires == 0)
  {
    var items := [JObj(m)];
    BareArrayIsWrapped(items);
    var fields := map["cookies" := JArr(items)];
    assert items[..0] == [] && ObjectRows(items) == [m];
    DocumentReads(fields);
    hide Decoded, ReadableRow;
    assert AllReadable([m]);
    assert ReadsAs(m, Decoded(JArr(items)).value.cookies[0]);
  }
}
