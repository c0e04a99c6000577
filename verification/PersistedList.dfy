/** The list of saved properties as one text: names joined with single spaces
    (src/indikit/driver/device.py:457-467), and a reader of it. */
module PersistedList {
  import opened Sexagesimal

  /** `" ".join(names)`. */
  function Join(names: seq<string>): string {
    if names == [] then ""
    else if |names| == 1 then names[0]
    else names[0] + " " + Join(names[1..])
  }

  predicate NoSpace(s: string) {
    forall i :: 0 <= i < |s| ==> !IsSpace(s[i])
  }

  function WordEnd(s: string): (n: nat)
    ensures n <= |s| && NoSpace(s[..n]) && (n < |s| ==> IsSpace(s[n]))
    ensures s != "" && !IsSpace(s[0]) ==> n > 0
  {
    if s == "" || IsSpace(s[0]) then 0
    else
      var n := 1 + WordEnd(s[1..]);
      assert forall i :: 0 < i < n ==> s[i] == s[1..][i - 1];
      n
  }

  lemma {:induction false} StripsSpace(s: string)
    ensures |LeftStrip(s)| <= |s| && (LeftStrip(s) != "" ==> !IsSpace(LeftStrip(s)[0]))
  {
    if s != "" && IsSpace(s[0]) {
      StripsSpace(s[1..]);
    }
  }

  /** `text.split()`: the words between runs of white space. */
  function Words(text: string): seq<string>
    decreases |text|
  {
    StripsSpace(text);
    var s := LeftStrip(text);
    if s == "" then [] else [s[..WordEnd(s)]] + Words(s[WordEnd(s)..])
  }

  function NonEmpty(names: seq<string>): (kept: seq<string>)
    ensures forall n :: n in kept <==> n in names && n != ""
    ensures (forall n :: n in names ==> n != "") ==> kept == names
  {
    if names == [] then []
    else
      assert names == [names[0]] + names[1..] && names[0] in names && forall n :: n in names[1..] ==> n in names;
      (if names[0] == "" then [] else [names[0]]) + NonEmpty(names[1..])
  }

  lemma {:induction false} WordEndIs(s: string, n: nat)
    requires n <= |s| && NoSpace(s[..n]) && (n < |s| ==> IsSpace(s[n]))
    ensures WordEnd(s) == n
  {
    if n > 0 {
      assert !IsSpace(s[..n][0]);
      assert s[1..][..n - 1] == s[..n][1..];
      WordEndIs(s[1..], n - 1);
    }
  }

  lemma FirstWord(a: string, rest: string)
    requires NoSpace(a) && (rest == "" || IsSpace(rest[0]))
    ensures Words(a + rest) == (if a == "" then [] else [a]) + Words(rest)
  {
    var s := a + rest;
    if a == "" {
      assert s == rest;
    } else {
      assert s[..|a|] == a && s[|a|..] == rest;
      WordEndIs(s, |a|);
      assert !IsSpace(s[0]);
    }
  }

  lemma SpaceFirst(s: string)
    ensures Words(" " + s) == Words(s)
  {
    assert (" " + s)[1..] == s;
  }

  /** Reading the list gives back the names, if none of them holds white space. */
  lemma {:induction false} WordsOfJoin(names: seq<string>)
    requires forall n :: n in names ==> NoSpace(n)
    ensures Words(Join(names)) == NonEmpty(names)
  {
    if names == [] {
    } else if |names| == 1 {
      assert names[0] + "" == names[0];
      FirstWord(names[0], "");
      assert names[1..] == [];
    } else {
      WordsOfJoin(names[1..]);
      assert Join(names) == names[0] + (" " + Join(names[1..]));
      FirstWord(names[0], " " + Join(names[1..]));
      SpaceFirst(Join(names[1..]));
    }
  }
}
