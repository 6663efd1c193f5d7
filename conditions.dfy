/** `convert_conditions_to_where`: the three shapes a `conditions` option can
    take and the WHERE fragment each one becomes.  Quoting is the database
    layer's and enters as the function `quote`. */
module Conditions {
  import opened Values
  import opened Strings

  /** A PHP array key, after PHP's own normalisation of numeric strings. */
  datatype Key = IntKey(i: int) | StrKey(k: string)

  /** A value inside a conditions array: a scalar in its string form, or a
      nested array. */
  datatype Elem = Scalar(s: string) | List(entries: seq<(Key, Elem)>)

  /** The `conditions` option: a raw SQL string or an ordered PHP array. */
  datatype Conditions = Raw(s: string) | Array(entries: seq<(Key, Elem)>)

  /** How a key reads inside a double-quoted PHP string. */
  function KeyString(k: Key): string
  {
    match k
    case IntKey(i) => IntToString(i)
    case StrKey(s) => s
  }

  /** PHP's string conversion of an element: an array reads as `Array`. */
  function StrOf(e: Elem): string
  {
    match e
    case Scalar(s) => s
    case List(_) => "Array"
  }

  function Bracket(s: string): string
  {
    " ( " + s + " ) "
  }

  /** The three readings of an array. */
  datatype Shape = Positional | Named | Associative

  /** The branch test: the first key is 0, the last key is `count - 1` and the
      last value is no array for a positional template; the first key is 0
      otherwise for a named one; anything else (an empty array included) is
      read as column => value. */
  function ShapeOf(entries: seq<(Key, Elem)>): Shape
  {
    if |entries| > 0 && entries[0].0 == IntKey(0) then
      if entries[|entries| - 1].0 == IntKey(|entries| - 1) && !entries[|entries| - 1].1.List? then Positional
      else Named
    else Associative
  }

  /** A 0-based list of consecutive keys ending in a scalar is a positional
      template; an array whose first key is not 0 is associative. */
  lemma ShapeOfList(entries: seq<(Key, Elem)>)
    ensures (|entries| > 0 && (forall k :: 0 <= k < |entries| ==> entries[k].0 == IntKey(k))
             && entries[|entries| - 1].1.Scalar?) ==> ShapeOf(entries) == Positional
    ensures (|entries| == 0 || entries[0].0 != IntKey(0)) <==> ShapeOf(entries) == Associative
  {
  }

  // ---------------------------------------------------------------------
  // Positional templates
  // ---------------------------------------------------------------------

  /** The quoted forms of the values, in order. */
  function Quoted(quote: Elem -> string, entries: seq<(Key, Elem)>): (r: seq<string>)
    ensures |r| == |entries|
    ensures forall k :: 0 <= k < |entries| ==> r[k] == quote(entries[k].1)
  {
    seq(|entries|, k requires 0 <= k < |entries| => quote(entries[k].1))
  }

  /** The source's substitution: each value in turn replaces the first `?`
      of the string as it stands after the previous replacements. */
  function Substitute(t: string, values: seq<string>): string
    decreases |values|
  {
    if values == [] then t
    else Substitute(ReplaceFirst(t, "?", values[0]), values[1..])
  }

  /** The reference reading of a template: its `?` marks, left to right, take
      the values in order; marks beyond the last value stay. */
  function Fill(t: string, values: seq<string>): string
    decreases |t|
  {
    if values == [] then t
    else
      match FirstIndexOf("?", t)
      case None => t
      case Some(i) => t[..i] + values[0] + Fill(t[i + 1..], values[1..])
  }

  lemma OccursChar(c: char, s: string, k: int)
    ensures OccursAt([c], s, k) <==> 0 <= k < |s| && s[k] == c
  {
    if 0 <= k < |s| {
      assert s[k..k + 1] == [s[k]];
    }
  }

  /** A string without a `?` is left alone by any number of substitutions. */
  lemma {:induction false} SubstituteNoMark(t: string, values: seq<string>)
    requires '?' !in t
    ensures Substitute(t, values) == t
    decreases |values|
  {
    if values != [] {
      var r := FirstIndexOf("?", t);
      if r.Some? {
        OccursChar('?', t, r.value);
        assert false;
      }
      SubstituteNoMark(t, values[1..]);
    }
  }

  /** Substitution passes over a prefix without `?`. */
  lemma {:induction false} SubstituteSkips(a: string, b: string, values: seq<string>)
    requires '?' !in a
    ensures Substitute(a + b, values) == a + Substitute(b, values)
    decreases |values|
  {
    if values != [] {
      ReplaceFirstSkips(a, b, "?", values[0]);
      SubstituteSkips(a, ReplaceFirst(b, "?", values[0]), values[1..]);
    }
  }

  /** As long as no value brings a `?` of its own, the source's repeated
      first-match replacement fills the template's marks left to right. */
  lemma {:induction false} SubstituteIsFill(t: string, values: seq<string>)
    requires forall k :: 0 <= k < |values| ==> '?' !in values[k]
    ensures Substitute(t, values) == Fill(t, values)
    decreases |t|
  {
    if values != [] {
      match FirstIndexOf("?", t)
      case None =>
        forall k | 0 <= k < |t| ensures t[k] != '?' {
          OccursChar('?', t, k);
        }
        SubstituteNoMark(t, values);
      case Some(i) =>
        OccursChar('?', t, i);
        var a := t[..i] + values[0];
        forall k | 0 <= k < i ensures t[k] != '?' {
          OccursChar('?', t, k);
        }
        assert '?' !in a;
        assert ReplaceFirst(t, "?", values[0]) == a + t[i + 1..];
        SubstituteSkips(a, t[i + 1..], values[1..]);
        SubstituteIsFill(t[i + 1..], values[1..]);
    }
  }

  // ---------------------------------------------------------------------
  // Named templates
  // ---------------------------------------------------------------------

  /** How many integer keys `entries` holds. */
  function IntKeys(entries: seq<(Key, Elem)>): (n: nat)
    ensures n <= |entries|
  {
    if entries == [] then 0
    else IntKeys(entries[..|entries| - 1]) + (if entries[|entries| - 1].0.IntKey? then 1 else 0)
  }

  /** `array_shift`'s renumbering of what remains: the integer keys become
      `next`, `next + 1`, ... in order, string keys and all values stay. */
  function Renumber(entries: seq<(Key, Elem)>, next: int): (r: seq<(Key, Elem)>)
    ensures |r| == |entries|
    ensures forall k :: 0 <= k < |entries| ==> r[k].1 == entries[k].1
    ensures forall k :: 0 <= k < |entries| && entries[k].0.StrKey? ==> r[k].0 == entries[k].0
    ensures forall k :: 0 <= k < |entries| && entries[k].0.IntKey? ==> r[k].0 == IntKey(next + IntKeys(entries[..k]))
    decreases |entries|
  {
    if entries == [] then []
    else
      var prefix := entries[..|entries| - 1];
      var last := entries[|entries| - 1];
      var r := Renumber(prefix, next) + [if last.0.IntKey? then (IntKey(next + IntKeys(prefix)), last.1) else last];
      assert forall k :: 0 <= k < |prefix| ==> entries[..k] == prefix[..k];
      r
  }

  /** The bind variables of a named template: the array right after the
      template when there is one, otherwise the rest of the entries. */
  function Bindings(entries: seq<(Key, Elem)>): seq<(Key, Elem)>
    requires |entries| > 0
  {
    var rest := Renumber(entries[1..], 0);
    if |rest| > 0 && rest[0].1.List? then rest[0].1.entries else rest
  }

  /** Each binding in turn replaces the first `:key` of the string as it
      stands. */
  function SubstituteNamed(t: string, quote: Elem -> string, bindings: seq<(Key, Elem)>): string
    decreases |bindings|
  {
    if bindings == [] then t
    else SubstituteNamed(ReplaceFirst(t, ":" + KeyString(bindings[0].0), quote(bindings[0].1)), quote, bindings[1..])
  }

  /** A template that names none of the bindings comes back unchanged. */
  lemma {:induction false} SubstituteNamedUnused(t: string, quote: Elem -> string, bindings: seq<(Key, Elem)>)
    requires forall k, j :: 0 <= k < |bindings| ==> !OccursAt(":" + KeyString(bindings[k].0), t, j)
    ensures SubstituteNamed(t, quote, bindings) == t
    decreases |bindings|
  {
    if bindings != [] {
      var r := FirstIndexOf(":" + KeyString(bindings[0].0), t);
      if r.Some? {
        assert false;
      }
      forall k, j | 0 <= k < |bindings[1..]| ensures !OccursAt(":" + KeyString(bindings[1..][k].0), t, j) {
        assert bindings[1..][k] == bindings[k + 1];
      }
      SubstituteNamedUnused(t, quote, bindings[1..]);
    }
  }

  /** Left to right: the first binding fills the first mark naming it when
      no `:` comes before that mark, and the remaining bindings then work on
      the filled text. */
  lemma SubstituteNamedStep(pre: string, post: string, quote: Elem -> string, key: Key, v: Elem, rest: seq<(Key, Elem)>)
    requires ':' !in pre
    ensures SubstituteNamed(pre + (":" + KeyString(key)) + post, quote, [(key, v)] + rest)
         == SubstituteNamed(pre + quote(v) + post, quote, rest)
  {
    var pat := ":" + KeyString(key);
    var bs := [(key, v)] + rest;
    assert bs[0] == (key, v) && bs[1..] == rest;
    ReplaceFirstSkips(pre, pat + post, pat, quote(v));
    ReplaceFirstAtStart(pat, post, quote(v));
    AppendAssoc(pre, pat, post);
    AppendAssoc(pre, quote(v), post);
  }

  // ---------------------------------------------------------------------
  // Associative arrays
  // ---------------------------------------------------------------------

  /** The string forms of a nested array's values, as `join` writes them. */
  function Strs(entries: seq<(Key, Elem)>): (r: seq<string>)
    ensures |r| == |entries|
    ensures forall k :: 0 <= k < |entries| ==> r[k] == StrOf(entries[k].1)
  {
    seq(|entries|, k requires 0 <= k < |entries| => StrOf(entries[k].1))
  }

  /** One column test: equality with the quoted value, or membership in the
      array's values, which are not quoted. */
  function Clause(quote: Elem -> string, entry: (Key, Elem)): string
  {
    match entry.1
    case List(items) => "`" + KeyString(entry.0) + "` IN ( " + Join(", ", Strs(items)) + " )"
    case Scalar(_) => "`" + KeyString(entry.0) + "` = " + quote(entry.1)
  }

  function Clauses(quote: Elem -> string, entries: seq<(Key, Elem)>): (r: seq<string>)
    ensures |r| == |entries|
    ensures forall k :: 0 <= k < |entries| ==> r[k] == Clause(quote, entries[k])
    decreases |entries|
  {
    if entries == [] then []
    else Clauses(quote, entries[..|entries| - 1]) + [Clause(quote, entries[|entries| - 1])]
  }

  // ---------------------------------------------------------------------
  // The conversion
  // ---------------------------------------------------------------------

  /** The WHERE fragment `conditions` stands for. */
  function Where(quote: Elem -> string, c: Conditions): string
  {
    match c
    case Raw(s) => Bracket(s)
    case Array(es) =>
      match ShapeOf(es)
      case Positional => Substitute(Bracket(StrOf(es[0].1)), Quoted(quote, es[1..]))
      case Named => SubstituteNamed(Bracket(StrOf(es[0].1)), quote, Bindings(es))
      case Associative => Bracket(Join(" AND ", Clauses(quote, es)))
  }

  /** A positional template whose quoted values hold no `?` has its marks
      filled left to right with the quoted values. */
  lemma WherePositional(quote: Elem -> string, es: seq<(Key, Elem)>)
    requires ShapeOf(es) == Positional
    requires forall k :: 1 <= k < |es| ==> '?' !in quote(es[k].1)
    ensures Where(quote, Array(es)) == Fill(Bracket(StrOf(es[0].1)), Quoted(quote, es[1..]))
  {
    var qs := Quoted(quote, es[1..]);
    forall k | 0 <= k < |qs| ensures '?' !in qs[k] {
      assert qs[k] == quote(es[k + 1].1);
    }
    SubstituteIsFill(Bracket(StrOf(es[0].1)), qs);
  }

  /** A single column test reads `` ( `col` = value ) ``. */
  lemma WhereSingleColumn(quote: Elem -> string, col: string, v: string)
    ensures Where(quote, Array([(StrKey(col), Scalar(v))])) == " ( `" + col + "` = " + quote(Scalar(v)) + " ) "
  {
    var es := [(StrKey(col), Scalar(v))];
    var q := quote(Scalar(v));
    assert ShapeOf(es) == Associative;
    assert Clauses(quote, es) == ["`" + col + "` = " + q];
    assert " ( " + "`" == " ( `";
    AppendAssoc(" ( ", "`", col);
    AppendAssoc(" ( ", "`" + col, "` = ");
    AppendAssoc(" ( ", "`" + col + "` = ", q);
  }

  /** An empty array reads as empty brackets. */
  lemma WhereEmpty(quote: Elem -> string)
    ensures Where(quote, Array([])) == " (  ) "
  {
  }


  /** `convert_conditions_to_where($conditions)`, rewriting the fragment step
      by step as the source does. */
  method ConvertConditionsToWhere(quote: Elem -> string, c: Conditions) returns (condition: string)
    ensures condition == Where(quote, c)
  {
    if c.Raw? {
      return Bracket(c.s);
    }
    var shape := ShapeOf(c.entries);
    if shape == Positional {
      condition := PositionalWhere(quote, c.entries);
    } else if shape == Named {
      condition := NamedWhere(quote, c.entries);
    } else {
      condition := AssociativeWhere(quote, c.entries);
    }
  }

  /** The positional branch: each `?` in turn takes the next quoted value. */
  method PositionalWhere(quote: Elem -> string, es: seq<(Key, Elem)>) returns (condition: string)
    requires ShapeOf(es) == Positional
    ensures condition == Where(quote, Array(es))
  {
    condition := Bracket(StrOf(es[0].1));
    ghost var qs := Quoted(quote, es[1..]);
    var i := 1;
    while i < |es|
      invariant 1 <= i <= |es|
      invariant Substitute(condition, qs[i - 1..]) == Where(quote, Array(es))
    {
      assert qs[i - 1..][0] == quote(es[i].1) && qs[i - 1..][1..] == qs[i..];
      condition := ReplaceFirst(condition, "?", quote(es[i].1));
      i := i + 1;
    }
    assert qs[i - 1..] == [];
  }

  /** The named branch: each `:key` in turn takes its quoted value. */
  method NamedWhere(quote: Elem -> string, es: seq<(Key, Elem)>) returns (condition: string)
    requires ShapeOf(es) == Named
    ensures condition == Where(quote, Array(es))
  {
    condition := Bracket(StrOf(es[0].1));
    var bindings := Bindings(es);
    var i := 0;
    while i < |bindings|
      invariant 0 <= i <= |bindings|
      invariant SubstituteNamed(condition, quote, bindings[i..]) == Where(quote, Array(es))
    {
      assert bindings[i..][1..] == bindings[i + 1..];
      condition := ReplaceFirst(condition, ":" + KeyString(bindings[i].0), quote(bindings[i].1));
      i := i + 1;
    }
  }

  /** The associative branch: one test per entry, joined with AND. */
  method AssociativeWhere(quote: Elem -> string, es: seq<(Key, Elem)>) returns (condition: string)
    requires ShapeOf(es) == Associative
    ensures condition == Where(quote, Array(es))
  {
    var w: seq<string> := [];
    var i := 0;
    while i < |es|
      invariant 0 <= i <= |es|
      invariant w == Clauses(quote, es[..i])
    {
      assert es[..i + 1][..i] == es[..i];
      var key := KeyString(es[i].0);
      if es[i].1.List? {
        w := w + ["`" + key + "` IN ( " + Join(", ", Strs(es[i].1.entries)) + " )"];
      } else {
        w := w + ["`" + key + "` = " + quote(es[i].1)];
      }
      i := i + 1;
    }
    assert es[..i] == es;
    condition := " ( " + Join(" AND ", w) + " ) ";
  }
}
