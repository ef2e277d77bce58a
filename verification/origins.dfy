/**
  The list of origins the live channel accepts cross-origin connections from
  (server.js, lines 13-25): two fixed defaults followed by the entries of the
  comma-separated `CLIENT_ORIGINS` environment variable.
*/
module Origins {
  import opened Options
  import opened Strings
  import opened Js

  const DefaultOrigins: seq<string> := ["http://localhost:5173", "https://your-app.vercel.app"]

  /** `fields.map(s => s.trim()).filter(Boolean)`: the trimmed fields that are not empty,
      in their original order. */
  function KeepNonBlank(fields: seq<string>): (r: seq<string>)
    ensures |r| <= |fields|
    ensures forall i :: 0 <= i < |r| ==> r[i] != "" && IsTrimmed(r[i])
    ensures forall i :: 0 <= i < |fields| && Trim(fields[i]) != "" ==> Trim(fields[i]) in r
    ensures forall x :: x in r ==> exists i :: 0 <= i < |fields| && x == Trim(fields[i])
    decreases |fields|
  {
    if |fields| == 0 then []
    else
      var t := Trim(fields[0]);
      var rest := KeepNonBlank(fields[1..]);
      assert forall i :: 1 <= i < |fields| ==> fields[i] == fields[1..][i - 1];
      (if t == "" then [] else [t]) + rest
  }

  /** Origins that survive the trim-and-filter pipeline unchanged and cannot be split. */
  predicate CleanOrigins(xs: seq<string>) {
    forall i :: 0 <= i < |xs| ==> xs[i] != "" && IsTrimmed(xs[i]) && ',' !in xs[i]
  }

  /** Every non-blank field appears in `xs`, trimmed. */
  predicate Covers(xs: seq<string>, fields: seq<string>) {
    forall f :: f in fields && Trim(f) != "" ==> Trim(f) in xs
  }

  /** Every entry of `xs` is the trimmed text of some field: nothing else is added. */
  predicate Sourced(xs: seq<string>, fields: seq<string>) {
    forall i :: 0 <= i < |xs| ==> exists f :: f in fields && xs[i] == Trim(f)
  }

  /** The origin list built from the value of `CLIENT_ORIGINS`, absent or not: the two
      defaults, then exactly the non-blank comma-separated fields, trimmed. The order of
      those fields is kept, by `KeepNonBlankConcat` and `KeepNonBlankSingle`. */
  function AllowedOrigins(env: Option<string>): (r: seq<string>)
    ensures |r| >= 2 && r[..2] == DefaultOrigins
    ensures CleanOrigins(r[2..])
    ensures !Present(env) ==> r == DefaultOrigins
    ensures env.Some? ==> Covers(r[2..], Split(env.value, ',')) && Sourced(r[2..], Split(env.value, ','))
  {
    var fields := Split(env.GetOr(""), ',');
    var extra := KeepNonBlank(fields);
    ExtrasOf(fields);
    assert (DefaultOrigins + extra)[2..] == extra;
    DefaultOrigins + extra
  }

  /** What trim-and-filter keeps of comma-free fields is clean, complete and sourced. */
  lemma ExtrasOf(fields: seq<string>)
    requires FreeOf(fields, ',')
    ensures CleanOrigins(KeepNonBlank(fields))
    ensures Covers(KeepNonBlank(fields), fields) && Sourced(KeepNonBlank(fields), fields)
  {
    var extra := KeepNonBlank(fields);
    forall i | 0 <= i < |extra|
      ensures ',' !in extra[i]
      ensures exists f :: f in fields && extra[i] == Trim(f)
    {
      assert extra[i] in extra;
      var k :| 0 <= k < |fields| && extra[i] == Trim(fields[k]);
      TrimIsInfix(fields[k]);
      assert fields[k] in fields;
    }
  }

  /** A single field contributes its trimmed text, or nothing when that is empty. */
  lemma KeepNonBlankSingle(f: string)
    ensures KeepNonBlank([f]) == if Trim(f) == "" then [] else [Trim(f)]
  {
    assert [f][1..] == [];
  }

  /** Trim-and-filter works field by field: the fields of `a` come first, in order, then
      those of `b`, and nothing is dropped twice or duplicated. With `KeepNonBlankSingle`
      this pins the result down completely. */
  lemma {:induction false} KeepNonBlankConcat(a: seq<string>, b: seq<string>)
    ensures KeepNonBlank(a + b) == KeepNonBlank(a) + KeepNonBlank(b)
    decreases |a|
  {
    if |a| > 0 {
      assert (a + b)[0] == a[0];
      assert (a + b)[1..] == a[1..] + b;
      KeepNonBlankConcat(a[1..], b);
    } else {
      assert a + b == b;
    }
  }


  /** Fields that are already trimmed and non-empty are all kept, unchanged. */
  lemma {:induction false} KeepNonBlankKeepsAll(xs: seq<string>)
    requires CleanOrigins(xs)
    ensures KeepNonBlank(xs) == xs
    decreases |xs|
  {
    if |xs| > 0 {
      KeepNonBlankKeepsAll(xs[1..]);
      assert [xs[0]] + xs[1..] == xs;
    }
  }

  lemma SplitCleanOrigins(xs: seq<string>)
    requires |xs| >= 1 && CleanOrigins(xs)
    ensures Split(Join(xs, ','), ',') == xs
  {
    SplitJoin(xs, ',');
  }

  /** Setting `CLIENT_ORIGINS` to the comma-joined list of clean origins yields exactly
      the defaults followed by that list. */
  lemma OriginsFromList(xs: seq<string>)
    requires |xs| >= 1 && CleanOrigins(xs)
    ensures AllowedOrigins(Some(Join(xs, ','))) == DefaultOrigins + xs
  {
    SplitCleanOrigins(xs);
    KeepNonBlankKeepsAll(xs);
    assert Split(Some(Join(xs, ',')).GetOr(""), ',') == xs;
  }

  /** Joining two settings with a comma lists the origins of the first, then the extra
      origins of the second: nothing is lost, reordered or added at the seam. */
  lemma AllowedOriginsAppend(a: string, b: string)
    ensures AllowedOrigins(Some(a + "," + b)) == AllowedOrigins(Some(a)) + AllowedOrigins(Some(b))[2..]
  {
    var ka, kb := KeepNonBlank(Split(a, ',')), KeepNonBlank(Split(b, ','));
    assert a + "," + b == a + [','] + b;
    SplitConcat(a, b, ',');
    KeepNonBlankConcat(Split(a, ','), Split(b, ','));
    ExtrasOfSetting(a + "," + b);
    ExtrasOfSetting(a);
    ExtrasOfSetting(b);
    DropDefaults(kb);
    AppendAssoc(DefaultOrigins, ka, kb);
  }

  /** Dropping the two defaults leaves the extras. */
  lemma DropDefaults(xs: seq<string>)
    ensures (DefaultOrigins + xs)[2..] == xs
  {
  }

  /** Concatenation regroups freely. */
  lemma AppendAssoc<T>(x: seq<T>, y: seq<T>, z: seq<T>)
    ensures x + (y + z) == (x + y) + z
  {
  }

  /** The origins of a set variable are the defaults followed by its trim-and-filter extras. */
  lemma ExtrasOfSetting(e: string)
    ensures AllowedOrigins(Some(e)) == DefaultOrigins + KeepNonBlank(Split(e, ','))
  {
  }
}
