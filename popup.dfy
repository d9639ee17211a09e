/**
 * The detail rows of a feature's popup: which properties are listed, how
 * the key is displayed, and whether the value is shown as a web link, a
 * mail link or plain text. Both copies of the popup code (icon layer and
 * fallback layer) do the same; the rows stand for the `<p>` elements.
 */
module Popup {
  import opened Js
  import opened Features

  /** Keys never listed, compared with the lower-cased key. */
  const ExcludedKeys: seq<string> :=
    ["id", "address_gmaps", "share_gmaps", "point_lat", "point_lon", "displaystate"]

  datatype ValueKind = Link | Mailto | Plain

  datatype Row = Row(shownKey: string, text: string, kind: ValueKind)

  /** The property is listed: not `name`, not excluded, and its value is not null, undefined or blank. */
  predicate Listed(key: string, v: JValue) {
    key != "name" && LowerAsciiString(key) !in ExcludedKeys
    && !(v == Null || v == Undefined) && Trim(ToStr(v)) != ""
  }

  /** A string starting with `http://` or `https://` is a link; else a string with `@` not starting with `mailto:` is an address. */
  function KindOf(v: JValue): ValueKind {
    if v.Str? && (StartsWith(v.s, "http://") || StartsWith(v.s, "https://")) then Link
    else if v.Str? && '@' in v.s && !StartsWith(v.s, "mailto:") then Mailto
    else Plain
  }

  /** `key.replace(/_/g, ' ')` */
  function Spaced(key: string): (r: string)
    ensures |r| == |key|
    ensures '_' !in r
    ensures forall i :: 0 <= i < |key| && key[i] == '_' ==> r[i] == ' '
    ensures forall i :: 0 <= i < |key| && key[i] != '_' ==> r[i] == key[i]
  {
    seq(|key|, i requires 0 <= i < |key| => if key[i] == '_' then ' ' else key[i])
  }

  /** A word character at position `i` that follows no word character: a match of `\b\w`. */
  predicate WordStart(s: string, i: int)
    requires 0 <= i < |s|
  {
    IsWordChar(s[i]) && (i == 0 || !IsWordChar(s[i - 1]))
  }

  /** `.replace(/\b\w/g, l => l.toUpperCase())` */
  function CapitalizeWords(s: string): (r: string)
    ensures |r| == |s|
    ensures forall i :: 0 <= i < |s| ==> LowerAscii(r[i]) == LowerAscii(s[i])
    ensures forall i :: 0 <= i < |s| && WordStart(s, i) ==> !('a' <= r[i] <= 'z')
    ensures forall i :: 0 <= i < |s| && !WordStart(s, i) ==> r[i] == s[i]
  {
    seq(|s|, i requires 0 <= i < |s| => if WordStart(s, i) then UpperAscii(s[i]) else s[i])
  }

  function FormatKey(key: string): string {
    CapitalizeWords(Spaced(key))
  }

  function RowOf(key: string, v: JValue): Row {
    Row(FormatKey(key), ToStr(v), KindOf(v))
  }

  /** The row of one property, if it is listed. */
  function RowFor(entry: (string, JValue)): seq<Row> {
    if Listed(entry.0, entry.1) then [RowOf(entry.0, entry.1)] else []
  }

  /** The concatenation of `f(x)` over `xs`, built from the front. */
  function FlatMap<T, U>(f: T -> seq<U>, xs: seq<T>): seq<U> {
    if xs == [] then [] else FlatMap(f, xs[..|xs| - 1]) + f(xs[|xs| - 1])
  }

  /** Whatever one element contributes is in the concatenation. */
  lemma {:induction false} FlatMapHas<T, U>(f: T -> seq<U>, xs: seq<T>, i: int, y: U)
    requires 0 <= i < |xs| && y in f(xs[i])
    ensures y in FlatMap(f, xs)
  {
    var q := xs[..|xs| - 1];
    if i < |q| {
      assert q[i] == xs[i];
      FlatMapHas(f, q, i, y);
    }
  }

  /** Everything in the concatenation was contributed by some element. */
  lemma {:induction false} FlatMapSource<T, U>(f: T -> seq<U>, xs: seq<T>, y: U) returns (x: T)
    requires y in FlatMap(f, xs)
    ensures x in xs && y in f(x)
  {
    var q := xs[..|xs| - 1];
    if y in FlatMap(f, q) {
      x := FlatMapSource(f, q, y);
      var j :| 0 <= j < |q| && q[j] == x;
      assert xs[j] == x;
    } else {
      x := xs[|xs| - 1];
    }
  }

  /** The rows of the listed properties of `p`, in enumeration order. */
  function RowsOf(p: Props): seq<Row> {
    FlatMap(RowFor, p)
  }

  /** The `for...in` loop that builds `detailsHtml`, one row per listed property. */
  method DetailRows(properties: Props) returns (rows: seq<Row>)
    ensures rows == RowsOf(properties)
  {
    rows := [];
    var i := 0;
    while i < |properties|
      invariant 0 <= i <= |properties|
      invariant rows == RowsOf(properties[..i])
    {
      var (key, value) := properties[i];
      assert properties[..i + 1][..i] == properties[..i];
      assert RowsOf(properties[..i + 1]) == rows + RowFor((key, value));
      i := i + 1;
      if key == "name" || LowerAsciiString(key) in ExcludedKeys {
        continue;
      }
      if value == Null || value == Undefined || Trim(ToStr(value)) == "" {
        continue;
      }
      rows := rows + [RowOf(key, value)];
    }
    assert properties[..i] == properties;
  }

  // ---------------------------------------------------------------------------
  // What the rows are

  /** Every row comes from a listed property of `p`. */
  lemma RowsFromListed(p: Props, r: Row)
    requires r in RowsOf(p)
    ensures exists e :: e in p && Listed(e.0, e.1) && r == RowOf(e.0, e.1)
  {
    var e := FlatMapSource(RowFor, p, r);
    assert r in RowFor(e);
  }

  /** Every listed property of `p` gives a row. */
  lemma ListedGivesRow(p: Props, i: int)
    requires 0 <= i < |p| && Listed(p[i].0, p[i].1)
    ensures RowOf(p[i].0, p[i].1) in RowsOf(p)
  {
    assert RowFor(p[i]) == [RowOf(p[i].0, p[i].1)];
    FlatMapHas(RowFor, p, i, RowOf(p[i].0, p[i].1));
  }

  /** A property is listed exactly when it passes the key test and its value is present and not blank. */
  lemma ListedIff(key: string, v: JValue)
    ensures Listed(key, v) <==>
            key != "name" && LowerAsciiString(key) !in ExcludedKeys
            && v != Null && v != Undefined && !IsBlank(ToStr(v))
  {
    TrimEmptyIffBlank(ToStr(v));
  }

  /** Key matching ignores ASCII case: `ID`, `Point_Lat` and `DisplayState` are never listed. */
  lemma ExcludedAnyCase(v: JValue)
    ensures !Listed("ID", v) && !Listed("Point_Lat", v) && !Listed("DisplayState", v)
  {
    assert LowerAsciiString("ID") == "id";
    assert LowerAsciiString("Point_Lat") == "point_lat";
    assert LowerAsciiString("DisplayState") == "displaystate";
  }

  /** Link exactly for a string with an http(s) prefix. */
  lemma LinkIff(v: JValue)
    ensures KindOf(v) == Link <==> v.Str? && (StartsWith(v.s, "http://") || StartsWith(v.s, "https://"))
  {
  }

  /** Mail link exactly for a non-link string containing `@` and not already a `mailto:`. */
  lemma MailtoIff(v: JValue)
    ensures KindOf(v) == Mailto <==>
            v.Str? && !(StartsWith(v.s, "http://") || StartsWith(v.s, "https://"))
            && '@' in v.s && !StartsWith(v.s, "mailto:")
  {
  }

  /** A number or a boolean is always plain text, whatever its rendering. */
  lemma NonStringIsPlain(v: JValue)
    requires !v.Str?
    ensures KindOf(v) == Plain
  {
  }

  // ---------------------------------------------------------------------------
  // The displayed key

  /**
   * The displayed key has the key's length, no underscore, and no lower-case
   * ASCII letter at the start of a word; apart from that capitalisation and
   * the underscores it is the key.
   */
  lemma FormatKeyShape(key: string)
    ensures var f := FormatKey(key);
            && |f| == |key|
            && (forall i :: 0 <= i < |f| ==> f[i] != '_')
            && (forall i :: 0 <= i < |f| && WordStart(f, i) ==> !('a' <= f[i] <= 'z'))
            && (forall i :: 0 <= i < |f| ==> LowerAscii(f[i]) == LowerAscii(Spaced(key)[i]))
  {
    var s := Spaced(key);
    var f := FormatKey(key);
    forall i | 0 <= i < |f| ensures IsWordChar(f[i]) <==> IsWordChar(s[i]) {
    }
    forall i | 0 <= i < |f| && WordStart(f, i) ensures !('a' <= f[i] <= 'z') {
      assert WordStart(s, i);
    }
  }

  /** Formatting a key twice changes nothing more. */
  lemma FormatKeyIdempotent(key: string)
    ensures FormatKey(FormatKey(key)) == FormatKey(key)
  {
    var f := FormatKey(key);
    var s := Spaced(key);
    assert Spaced(f) == f by {
      forall i | 0 <= i < |f| ensures f[i] != '_' {
        if WordStart(s, i) { assert s[i] != '_'; }
      }
    }
    forall i | 0 <= i < |f| ensures IsWordChar(f[i]) <==> IsWordChar(s[i]) {
    }
    forall i | 0 <= i < |f| ensures CapitalizeWords(f)[i] == f[i] {
      if WordStart(f, i) {
        assert WordStart(s, i);
      }
    }
  }

  /** `phone_number` is shown as `Phone Number`. */
  lemma FormatKeyPhoneNumber()
    ensures FormatKey("phone_number") == "Phone Number"
  {
    var s := Spaced("phone_number");
    assert s == "phone number";
    var f := CapitalizeWords(s);
    assert WordStart(s, 0) && WordStart(s, 6);
    forall i | 0 <= i < |s| && i != 0 && i != 6 ensures f[i] == s[i] {
      assert !WordStart(s, i);
    }
  }

  /** `website` is shown as `Website`. */
  lemma FormatKeyWebsite()
    ensures FormatKey("website") == "Website"
  {
    var w := Spaced("website");
    assert w == "website";
    var g := CapitalizeWords(w);
    forall i | 0 < i < |w| ensures g[i] == w[i] {
      assert IsWordChar(w[i - 1]);
    }
  }
}
