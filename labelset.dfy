/** The label-block decoder of the metrics parser. The block between `{` and
    `}` is split on `,`; each piece is split on `=`, and a piece whose text
    before the first `=` and between the first and second `=` are both
    non-empty assigns the trimmed key to the value with one leading and one
    trailing `"` removed. The result is a JavaScript object, modelled as its
    own properties in creation order. */
module LabelSet {
  import opened Options
  import opened JsText
  import opened Ordered
  import opened JsMap

  /** A `Record<string, string>`: (key, value) pairs in property creation order. */
  type Labels = Entries<string>

  /** The one key an assignment `labels[key] = value` on a plain object does
      not create: it reaches the prototype setter, which ignores a string. */
  const ProtoKey: string := "__proto__"

  /** `labels[key] = value`: an existing property keeps its place and takes the
      new value, a new one is created last; `__proto__` creates nothing. */
  function Assign(labels: Labels, key: string, value: string): Labels {
    if key == ProtoKey then labels else Set(labels, key, value)
  }

  /** Assignment keeps the keys distinct, creates a key only where it did
      not exist and then at the end, and afterwards `key` reads as the new
      value while every other key reads as before. */
  lemma AssignEffect(labels: Labels, key: string, value: string)
    requires Distinct(Keys(labels))
    ensures Distinct(Keys(Assign(labels, key, value)))
    ensures Keys(Assign(labels, key, value)) ==
            if key == ProtoKey || key in Keys(labels) then Keys(labels) else Keys(labels) + [key]
    ensures forall other :: Get(Assign(labels, key, value), other) ==
                            if other == key && key != ProtoKey then Some(value) else Get(labels, other)
  {
    if key != ProtoKey {
      SetEffect(labels, key, value);
    }
  }

  /** `v.replace(/^"|"$/g, "")`: one `"` off the front, then one off the
      back of what is left (a lone `"` leaves the empty text). */
  function StripQuotes(v: string): string {
    var a := if v != [] && v[0] == '"' then v[1..] else v;
    if a != [] && a[|a| - 1] == '"' then a[..|a| - 1] else a
  }

  /** A quoted text loses exactly its two quotes, whatever it holds. */
  lemma StripQuotesQuoted(s: string)
    ensures StripQuotes("\"" + s + "\"") == s
  {
    var v := "\"" + s + "\"";
    assert v[1..] == s + "\"";
  }

  /** A text that neither starts nor ends with `"` is left as it is. */
  lemma StripQuotesBare(s: string)
    requires s != [] ==> s[0] != '"' && s[|s| - 1] != '"'
    ensures StripQuotes(s) == s
  {
  }

  /** One label assignment from a `,`-separated piece, or `None` when the piece
      assigns nothing: `const [k, v] = l.split("=")` and `if (k && v)`. */
  function Fragment(l: string): Option<(string, string)> {
    var parts := Split(l, '=');
    if |parts| >= 2 && parts[0] != [] && parts[1] != []
    then Some((Trim(parts[0]), StripQuotes(parts[1])))
    else None
  }

  /** A piece `key=value` followed by nothing or by another `=...` assigns
      the trimmed key and the value between the first two `=`, quotes stripped. */
  lemma FragmentAssigns(key: string, value: string, rest: string)
    requires key != [] && value != [] && '=' !in key && '=' !in value
    requires rest == [] || rest[0] == '='
    ensures Fragment(key + "=" + value + rest) == Some((Trim(key), StripQuotes(value)))
  {
    assert key + "=" + value + rest == key + ['='] + (value + rest);
    SplitFirst(key, value + rest, '=');
    if rest == [] {
      assert value + rest == value;
      SplitNone(value, '=');
    } else {
      assert value + rest == value + ['='] + rest[1..];
      SplitFirst(value, rest[1..], '=');
    }
  }

  /** A piece without `=` assigns nothing. */
  lemma FragmentWithoutEquals(l: string)
    requires '=' !in l
    ensures Fragment(l) == None
  {
    SplitNone(l, '=');
  }

  /** A piece whose key or value is empty before trimming assigns nothing. */
  lemma FragmentEmptySide(key: string, rest: string)
    requires '=' !in key
    requires key == [] || rest == [] || rest[0] == '='
    ensures Fragment(key + "=" + rest) == None
  {
    assert key + "=" + rest == key + ['='] + rest;
    SplitFirst(key, rest, '=');
    if rest != [] && rest[0] == '=' {
      assert rest == [] + ['='] + rest[1..];
      SplitFirst([], rest[1..], '=');
    }
  }

  /** The body of the `forEach` for one piece. */
  function Apply(labels: Labels, l: string): Labels {
    match Fragment(l)
    case None => labels
    case Some((key, value)) => Assign(labels, key, value)
  }

  /** The `forEach` over the pieces, from the object built so far. */
  function DecodeFrom(labels: Labels, pieces: seq<string>): Labels
    decreases |pieces|
  {
    if pieces == [] then labels else DecodeFrom(Apply(labels, pieces[0]), pieces[1..])
  }

  /** The labels of a sample: the decoded block, or none when the block is
      absent or empty (`if (labelStr)`). */
  function DecodeLabels(block: Option<string>): Labels {
    if block.None? || block.value == [] then [] else DecodeFrom([], Split(block.value, ','))
  }

  /** The decoder as the parser runs it: a fresh object filled piece by piece. */
  method DecodeLabelBlock(block: Option<string>) returns (labels: Labels)
    ensures labels == DecodeLabels(block)
  {
    labels := [];
    if block.Some? && block.value != [] {
      var pieces := Split(block.value, ',');
      var i := 0;
      while i < |pieces|
        invariant 0 <= i <= |pieces|
        invariant DecodeFrom(labels, pieces[i..]) == DecodeFrom([], pieces)
      {
        assert pieces[i..][1..] == pieces[i + 1..];
        labels := Apply(labels, pieces[i]);
        i := i + 1;
      }
    }
  }

  lemma {:induction false} DecodeFromSnoc(labels: Labels, pieces: seq<string>, l: string)
    ensures DecodeFrom(labels, pieces + [l]) == Apply(DecodeFrom(labels, pieces), l)
    decreases |pieces|
  {
    if pieces != [] {
      assert (pieces + [l])[1..] == pieces[1..] + [l];
      DecodeFromSnoc(Apply(labels, pieces[0]), pieces[1..], l);
    }
  }

  /** The keys the pieces assign, in order, repetitions included. */
  function AssignedKeys(pieces: seq<string>): seq<string>
    decreases |pieces|
  {
    if pieces == [] then []
    else
      var f := Fragment(pieces[|pieces| - 1]);
      var init := AssignedKeys(pieces[..|pieces| - 1]);
      if f.Some? && f.value.0 != ProtoKey then init + [f.value.0] else init
  }

  /** The value the last piece assigning `key` gives it. */
  function LastAssigned(pieces: seq<string>, key: string): Option<string>
    decreases |pieces|
  {
    if pieces == [] then None
    else
      var f := Fragment(pieces[|pieces| - 1]);
      if f.Some? && f.value.0 == key && key != ProtoKey then Some(f.value.1)
      else LastAssigned(pieces[..|pieces| - 1], key)
  }

  /** Decoding yields one property per assigned key, in the order the keys
      were first assigned, and each key reads as the last value assigned to it. */
  lemma {:induction false} DecodeFromEmpty(pieces: seq<string>)
    ensures var labels := DecodeFrom([], pieces);
            Keys(labels) == Dedup(AssignedKeys(pieces)) &&
            Distinct(Keys(labels)) &&
            forall key :: Get(labels, key) == LastAssigned(pieces, key)
    decreases |pieces|
  {
    if pieces == [] {
    } else {
      var init := pieces[..|pieces| - 1];
      var l := pieces[|pieces| - 1];
      assert pieces == init + [l];
      DecodeFromEmpty(init);
      DecodeFromSnoc([], init, l);
      var before := DecodeFrom([], init);
      DedupElements(AssignedKeys(init));
      match Fragment(l)
      case None =>
      case Some((key, value)) =>
        AssignEffect(before, key, value);
        DedupSnoc(AssignedKeys(init), key);
    }
  }

  /** The decoded labels of a block, in terms of its `,`-separated pieces. */
  lemma DecodeLabelsMeaning(block: string)
    ensures var labels := DecodeLabels(Some(block));
            var pieces := Split(block, ',');
            Keys(labels) == Dedup(AssignedKeys(pieces)) &&
            Distinct(Keys(labels)) &&
            forall key :: Get(labels, key) == LastAssigned(pieces, key)
  {
    DecodeFromEmpty(Split(block, ','));
    if block == [] {
      assert Split(block, ',') == [""] by { SplitNone(block, ','); }
      FragmentWithoutEquals("");
      assert AssignedKeys([""]) == [];
      assert forall key :: LastAssigned([""], key) == None;
    }
  }

  /** A block with one piece `key=value`, the value ending the piece or
      followed by another `=`: one label, unless the key is the prototype's. */
  lemma OneLabel(key: string, value: string, rest: string)
    requires key != [] && value != [] && '=' !in key && '=' !in value
    requires rest == [] || rest[0] == '='
    requires ',' !in key && ',' !in value && ',' !in rest
    ensures DecodeLabels(Some(key + "=" + value + rest)) ==
            if Trim(key) == ProtoKey then [] else [(Trim(key), StripQuotes(value))]
  {
    var piece := key + "=" + value + rest;
    assert ',' !in piece;
    SplitNone(piece, ',');
    FragmentAssigns(key, value, rest);
    assert DecodeFrom([], [piece]) == Apply([], piece);
  }

  /** A block of two pieces applies them in order. */
  lemma TwoPieces(first: string, second: string)
    requires ',' !in first && ',' !in second
    ensures DecodeLabels(Some(first + [','] + second)) == Apply(Apply([], first), second)
  {
    var block := first + [','] + second;
    SplitFirst(first, second, ',');
    SplitNone(second, ',');
    assert Split(block, ',') == [first, second];
    assert [first, second][1..] == [second];
    assert [second][1..] == [];
    assert DecodeFrom([], [first, second]) == DecodeFrom(Apply([], first), [second]);
  }

  /** A block of two `key=value` pieces: the second label follows the first,
      or overwrites it when the trimmed keys agree. */
  lemma TwoLabels(key1: string, value1: string, key2: string, value2: string)
    requires key1 != [] && value1 != [] && '=' !in key1 && '=' !in value1 && ',' !in key1 && ',' !in value1
    requires key2 != [] && value2 != [] && '=' !in key2 && '=' !in value2 && ',' !in key2 && ',' !in value2
    requires Trim(key1) != ProtoKey && Trim(key2) != ProtoKey
    ensures DecodeLabels(Some(key1 + "=" + value1 + "," + key2 + "=" + value2)) ==
            if Trim(key1) == Trim(key2) then [(Trim(key1), StripQuotes(value2))]
            else [(Trim(key1), StripQuotes(value1)), (Trim(key2), StripQuotes(value2))]
  {
    var first := key1 + "=" + value1 + "";
    var second := key2 + "=" + value2 + "";
    assert key1 + "=" + value1 + "," + key2 + "=" + value2 == first + [','] + second;
    TwoPieces(first, second);
    FragmentAssigns(key1, value1, "");
    FragmentAssigns(key2, value2, "");
    AssignAfterOne(Trim(key1), StripQuotes(value1), Trim(key2), StripQuotes(value2));
  }

  lemma AssignAfterOne(key1: string, value1: string, key2: string, value2: string)
    requires key1 != ProtoKey && key2 != ProtoKey
    ensures Assign(Assign([], key1, value1), key2, value2) ==
            if key1 == key2 then [(key1, value2)] else [(key1, value1), (key2, value2)]
  {
    var one := [(key1, value1)];
    assert Assign([], key1, value1) == one;
    assert Keys(one) == [key1];
    if key1 == key2 {
      assert EntryIndex(one, key2) == 0;
    } else {
      assert EntryIndex(one, key2) == -1;
    }
  }

  /** `{key=""}`: the value `""` is non-empty before stripping, so the label
      is kept, with the empty value. */
  lemma EmptyQuotedValue(key: string)
    requires key != [] && '=' !in key && ',' !in key && Trim(key) != ProtoKey
    ensures DecodeLabels(Some(key + "=\"\"")) == [(Trim(key), "")]
  {
    OneLabel(key, "\"\"", "");
    assert key + "=" + "\"\"" + "" == key + "=\"\"";
    StripQuotesQuoted("");
  }

  /** `{key=value=more}`: a second `=` cuts the value short. */
  lemma SecondEqualsTruncates(key: string, value: string, more: string)
    requires key != [] && value != [] && '=' !in key && '=' !in value
    requires ',' !in key && ',' !in value && ',' !in more && Trim(key) != ProtoKey
    ensures DecodeLabels(Some(key + "=" + value + "=" + more)) == [(Trim(key), StripQuotes(value))]
  {
    OneLabel(key, value, "=" + more);
    assert key + "=" + value + "=" + more == key + "=" + value + ("=" + more);
  }

  /** `{ key ="v"}`: whitespace around the key is trimmed away. */
  lemma KeyTrimmed(pre: string, key: string, post: string, value: string)
    requires AllSpace(pre) && AllSpace(post) && key != []
    requires !IsSpace(key[0]) && !IsSpace(key[|key| - 1])
    requires '=' !in key && ',' !in key && key != ProtoKey
    requires value != [] && '=' !in value && ',' !in value
    ensures DecodeLabels(Some(pre + key + post + "=" + value)) == [(key, StripQuotes(value))]
  {
    assert '=' !in pre && ',' !in pre && '=' !in post && ',' !in post by {
      assert !IsSpace('=') && !IsSpace(',');
    }
    TrimOf(pre, key, post);
    OneLabel(pre + key + post, value, "");
    assert pre + key + post + "=" + value + "" == pre + key + post + "=" + value;
  }

  /** `{__proto__=v}`, with or without whitespace around the key: the
      assignment reaches the prototype setter and no label is created. */
  lemma ProtoKeyIgnored(pre: string, post: string, value: string)
    requires AllSpace(pre) && AllSpace(post)
    requires value != [] && '=' !in value && ',' !in value
    ensures DecodeLabels(Some(pre + ProtoKey + post + "=" + value)) == []
  {
    var key := pre + ProtoKey + post;
    assert '=' !in key && ',' !in key by {
      assert !IsSpace('=') && !IsSpace(',');
    }
    TrimOf(pre, ProtoKey, post);
    OneLabel(key, value, "");
    assert key + "=" + value + "" == pre + ProtoKey + post + "=" + value;
  }

  /** `{}` and a sample without a block: no labels. */
  lemma NoBlockNoLabels()
    ensures DecodeLabels(Some("")) == [] && DecodeLabels(None) == []
  {
  }

}
