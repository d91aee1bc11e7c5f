/**
 * Shared vocabulary: optional values, JavaScript truthiness, the ECMAScript
 * whitespace set used by `String.prototype.trim` and by the regular-expression
 * class `\s`, and the whitelist copy loop that both `updateOrg` and
 * `updateProfile` run over their request bodies.
 */
module Common {

  datatype Option<T> = None | Some(value: T)

  datatype Result<T, E> = Ok(value: T) | Err(error: E)

  /** A JSON value as it arrives in a request body (floating-point numbers are
      represented by their integer part; see README). */
  datatype Value = Null | Text(s: string) | Flag(b: bool) | Number(n: int) | IdList(ids: seq<string>)

  /** JavaScript truthiness of an optional string: `undefined` and `""` are falsy. */
  predicate Truthy(v: Option<string>) {
    v.Some? && v.value != ""
  }

  /** JavaScript truthiness of a JSON value (arrays are always truthy). */
  predicate ValueTruthy(v: Value) {
    match v
    case Null => false
    case Text(s) => s != ""
    case Flag(b) => b
    case Number(n) => n != 0
    case IdList(_) => true
  }

  /** The value a key holds in a body, `Null` standing for a missing key. */
  function Field(body: map<string, Value>, key: string): (v: Value)
    ensures key !in body ==> v == Null
    ensures key in body ==> v == body[key]
  {
    if key in body then body[key] else Null
  }

  /** The text a key holds, when it holds text. */
  function TextField(body: map<string, Value>, key: string): (t: Option<string>)
    ensures t.Some? <==> key in body && body[key].Text?
    ensures t.Some? ==> body[key] == Text(t.value)
  {
    if key in body && body[key].Text? then Some(body[key].s) else None
  }

  /** JavaScript `a || b` on optional strings: the first truthy operand, else the last. */
  function Or(a: Option<string>, b: Option<string>): (r: Option<string>)
    ensures Truthy(r) <==> Truthy(a) || Truthy(b)
    ensures Truthy(a) ==> r == a
    ensures !Truthy(a) ==> r == b
  {
    if Truthy(a) then a else b
  }

  /** ECMAScript WhiteSpace and LineTerminator code points. */
  predicate IsWhitespace(c: char) {
    || c == '\t' || c == '\n' || c == '\U{000B}' || c == '\U{000C}' || c == '\r'
    || c == ' ' || c == '\U{00A0}' || c == '\U{1680}'
    || ('\U{2000}' <= c <= '\U{200A}')
    || c == '\U{2028}' || c == '\U{2029}' || c == '\U{202F}' || c == '\U{205F}'
    || c == '\U{3000}' || c == '\U{FEFF}'
  }

  predicate NoWhitespace(s: string) {
    forall i :: 0 <= i < |s| ==> !IsWhitespace(s[i])
  }

  /** Drops leading whitespace. */
  function TrimStart(s: string): (r: string)
    ensures |r| <= |s| && r == s[|s| - |r|..]
    ensures r == [] || !IsWhitespace(r[0])
    ensures forall i :: 0 <= i < |s| - |r| ==> IsWhitespace(s[i])
  {
    if s != [] && IsWhitespace(s[0]) then TrimStart(s[1..]) else s
  }

  /** Drops trailing whitespace. */
  function TrimEnd(s: string): (r: string)
    ensures |r| <= |s| && r == s[..|r|]
    ensures r == [] || !IsWhitespace(r[|r| - 1])
    ensures forall i :: |r| <= i < |s| ==> IsWhitespace(s[i])
  {
    if s != [] && IsWhitespace(s[|s| - 1]) then TrimEnd(s[..|s| - 1]) else s
  }

  /** The length of the whitespace run `s` starts with. */
  function LeadingWhitespace(s: string): (n: nat)
    ensures n <= |s|
    ensures forall i :: 0 <= i < n ==> IsWhitespace(s[i])
    ensures n < |s| ==> !IsWhitespace(s[n])
  {
    |s| - |TrimStart(s)|
  }

  /** `String.prototype.trim`: the longest middle part with whitespace at neither end. */
  function Trim(s: string): (r: string)
    ensures |r| <= |s|
    ensures EndsTrimmed(r)
  {
    TrimEnd(TrimStart(s))
  }

  /** `trim` returns what lies between the leading whitespace run and the
      trailing whitespace of `s`. */
  lemma TrimRemovesSurrounding(s: string)
    ensures var r := Trim(s);
            var a := LeadingWhitespace(s);
            a + |r| <= |s| && r == s[a..a + |r|]
            && (forall i :: 0 <= i < a ==> IsWhitespace(s[i]))
            && (a < |s| ==> !IsWhitespace(s[a]))
            && (forall i :: a + |r| <= i < |s| ==> IsWhitespace(s[i]))
            && EndsTrimmed(r)
  {
    var t := TrimStart(s);
    var r := TrimEnd(t);
    assert Trim(s) == r;
    MiddleSlice(s, t, r, LeadingWhitespace(s));
  }

  /** A prefix `r` of the suffix `t` of `s` that starts at `a` is the slice of
      `s` from `a`, and when the rest of `t` is whitespace so is the rest of `s`. */
  lemma MiddleSlice(s: string, t: string, r: string, a: nat)
    requires a <= |s| && t == s[a..] && |r| <= |t| && r == t[..|r|]
    requires forall i :: |r| <= i < |t| ==> IsWhitespace(t[i])
    ensures a + |r| <= |s| && r == s[a..a + |r|]
    ensures forall i :: a + |r| <= i < |s| ==> IsWhitespace(s[i])
  {
    forall i | a + |r| <= i < |s| ensures IsWhitespace(s[i]) {
      assert s[i] == t[i - a];
    }
  }

  /** Neither end of `s` is whitespace: what `trim` produces. */
  predicate EndsTrimmed(s: string) {
    s == [] || (!IsWhitespace(s[0]) && !IsWhitespace(s[|s| - 1]))
  }

  /** A string whose ends are not whitespace is its own trim. */
  lemma TrimOfTrimmed(s: string)
    requires EndsTrimmed(s)
    ensures Trim(s) == s
  {
    assert TrimStart(s) == s;
    assert TrimEnd(s) == s;
  }

  /** A string without whitespace is its own trim. */
  lemma TrimNoWhitespace(s: string)
    requires NoWhitespace(s)
    ensures Trim(s) == s
  {
    assert TrimStart(s) == s;
  }

  /** Trimming twice is trimming once. */
  lemma TrimIdempotent(s: string)
    ensures Trim(Trim(s)) == Trim(s)
  {
    var r := Trim(s);
    assert TrimStart(r) == r;
    assert TrimEnd(r) == r;
  }

  /** `String.prototype.startsWith`, case-sensitive. */
  predicate StartsWith(s: string, prefix: string) {
    |prefix| <= |s| && s[..|prefix|] == prefix
  }

  /** No character of `s` is an upper-case ASCII letter. */
  predicate NoUpperAscii(s: string) {
    forall i :: 0 <= i < |s| ==> !('A' <= s[i] <= 'Z')
  }

  /** `String.prototype.toLowerCase`, restricted to the ASCII letters (see README). */
  function ToLowerAscii(s: string): (r: string)
    ensures |r| == |s|
    ensures forall i :: 0 <= i < |s| ==> ('A' <= s[i] <= 'Z' ==> r[i] as int == s[i] as int + 32)
    ensures forall i :: 0 <= i < |s| ==> (!('A' <= s[i] <= 'Z') ==> r[i] == s[i])
    ensures NoUpperAscii(r)
  {
    seq(|s|, i requires 0 <= i < |s| => if 'A' <= s[i] <= 'Z' then (s[i] as int + 32) as char else s[i])
  }

  /** A collection query that returns the first document in natural order
      satisfying `p` (`findOne`), as a position. */
  function FirstIndex<T>(s: seq<T>, p: T -> bool): (r: Option<nat>)
    ensures r.Some? ==> r.value < |s| && p(s[r.value])
    ensures r.Some? ==> forall j :: 0 <= j < r.value ==> !p(s[j])
    ensures r.None? <==> forall j :: 0 <= j < |s| ==> !p(s[j])
    decreases |s|
  {
    if s == [] then None
    else if p(s[0]) then Some(0)
    else match FirstIndex(s[1..], p)
      case None => None
      case Some(k) => Some(k + 1)
  }

  /** The first match is determined by the two facts a scan observes. */
  lemma FirstIndexAt<T>(s: seq<T>, p: T -> bool, i: nat)
    requires i < |s| && p(s[i])
    requires forall j :: 0 <= j < i ==> !p(s[j])
    ensures FirstIndex(s, p) == Some(i)
  {
  }

  /** The collection without the document at position `i` (`deleteOne` on a found document). */
  function RemoveAt<T>(s: seq<T>, i: nat): (r: seq<T>)
    requires i < |s|
    ensures |r| == |s| - 1
    ensures forall j :: 0 <= j < i ==> r[j] == s[j]
    ensures forall j :: i <= j < |r| ==> r[j] == s[j + 1]
    ensures multiset(r) == multiset(s) - multiset{s[i]}
  {
    assert s == s[..i] + [s[i]] + s[i + 1..];
    s[..i] + s[i + 1..]
  }

  /** `deleteOne(filter)`: removes the first document matching `p`, if any. */
  function DeleteOne<T>(s: seq<T>, p: T -> bool): seq<T> {
    match FirstIndex(s, p)
    case None => s
    case Some(k) => RemoveAt(s, k)
  }

  /** `deleteOne` removes exactly the first match, and nothing when none matches. */
  lemma DeleteOneEffect<T>(s: seq<T>, p: T -> bool)
    ensures FirstIndex(s, p).None? ==> DeleteOne(s, p) == s
    ensures FirstIndex(s, p).Some? ==>
              var k := FirstIndex(s, p).value;
              |DeleteOne(s, p)| == |s| - 1 && p(s[k])
              && multiset(DeleteOne(s, p)) == multiset(s) - multiset{s[k]}
  {
  }

  /** Mongoose's Boolean cast: the strings and numbers it knows become flags;
      anything else is left for the validators to refuse. */
  function BooleanCast(v: Value): (r: Value)
    ensures v.Flag? ==> r == v
    ensures r.Flag? || r == v
  {
    match v
    case Number(n) => if n == 1 then Flag(true) else if n == 0 then Flag(false) else v
    case Text(s) =>
      if s == "true" || s == "1" || s == "yes" then Flag(true)
      else if s == "false" || s == "0" || s == "no" then Flag(false)
      else v
    case _ => v
  }

  /** The values the Boolean cast turns into `true` and into `false`; every
      other value is passed on unchanged. */
  lemma BooleanCastTable(v: Value)
    ensures BooleanCast(v) == Flag(true) <==> v in [Flag(true), Text("true"), Text("1"), Text("yes"), Number(1)]
    ensures BooleanCast(v) == Flag(false) <==> v in [Flag(false), Text("false"), Text("0"), Text("no"), Number(0)]
    ensures !BooleanCast(v).Flag? ==> BooleanCast(v) == v
  {
  }

  /** An error carried to the HTTP layer: its status and message. */
  datatype Failure = Failure(status: int, message: string)

  /** What the HTTP layer answers for an error without a status (a validation,
      cast, duplicate-key or reference error). */
  const InternalError: Failure := Failure(500, "Internal Server Error")

  /** The refusal of the organisation and profile operations called without a caller id. */
  const NotAuthenticated: Failure := Failure(401, "Not authenticated")

  /** The document fields after copying the whitelisted keys of `update` through `setter`. */
  function Overlay(fields: map<string, Value>, update: map<string, Value>, allowed: seq<string>,
                   setter: (string, Value) -> Value): map<string, Value> {
    map k | k in fields.Keys + (set a | a in allowed && a in update) ::
      if k in allowed && k in update then setter(k, update[k]) else fields[k]
  }

  /** Copying changes exactly the whitelisted keys the update carries: every
      other key keeps its value, and no other key appears or disappears. */
  lemma OverlayFrame(fields: map<string, Value>, update: map<string, Value>, allowed: seq<string>,
                     setter: (string, Value) -> Value)
    ensures forall k :: k in allowed && k in update ==>
              k in Overlay(fields, update, allowed, setter) && Overlay(fields, update, allowed, setter)[k] == setter(k, update[k])
    ensures forall k :: !(k in allowed && k in update) ==>
              (k in Overlay(fields, update, allowed, setter) <==> k in fields)
              && (k in fields ==> Overlay(fields, update, allowed, setter)[k] == fields[k])
    ensures (forall k :: k in allowed ==> k !in update) ==> Overlay(fields, update, allowed, setter) == fields
  {
  }

  /** The loop `for (const key of allowed) if (hasOwnProperty(update, key)) doc[key] = update[key]`. */
  method CopyAllowed(fields: map<string, Value>, update: map<string, Value>, allowed: seq<string>,
                     setter: (string, Value) -> Value) returns (r: map<string, Value>)
    ensures forall k :: k in r <==> (k in fields || (k in allowed && k in update))
    ensures forall k :: k in r ==> r[k] == if k in allowed && k in update then setter(k, update[k]) else fields[k]
    ensures forall k :: k !in allowed ==> (k in r <==> k in fields) && (k in fields ==> r[k] == fields[k])
    ensures r == Overlay(fields, update, allowed, setter)
  {
    r := fields;
    for i := 0 to |allowed|
      invariant forall k :: k in r <==> (k in fields || (k in allowed[..i] && k in update))
      invariant forall k :: k in r ==> r[k] == if k in allowed[..i] && k in update then setter(k, update[k]) else fields[k]
    {
      var key := allowed[i];
      assert allowed[..i + 1] == allowed[..i] + [key];
      if key in update {
        r := r[key := setter(key, update[key])];
      }
    }
    assert allowed[..|allowed|] == allowed;
  }
}
