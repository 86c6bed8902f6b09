/** Claim values, claim conditions, their normalisation, and how a token is matched. */
module Claims {
  import opened Common

  /** A value of a claim or of a condition, by its dynamic type.  A float carries its rendering;
      Other is everything else: booleans, null, objects. */
  datatype Value =
    | Text(text: string)
    | Number(literal: string)
    | Float(rendering: string)
    | TextList(texts: seq<string>)
    | AnyList(items: seq<Value>)
    | Other

  type ClaimSet = map<string, Value>

  datatype Condition = Condition(claim: string, op: string, value: Value)

  datatype ConditionError = ClaimNameRequired | ValueMustBeString | ValueMustBeList | UnknownOp

  predicate HasPrefix(s: string, prefix: string) {
    |prefix| <= |s| && s[..|prefix|] == prefix
  }

  function ClaimString(v: Value): (r: string)
    ensures v == Text(r) || v == Number(r) || v == Float(r) || r == ""
    ensures v.Text? || v.Number? || v.Float? ==> v == Text(r) || v == Number(r) || v == Float(r)
  {
    match v
    case Text(s) => s
    case Number(s) => s
    case Float(s) => s
    case _ => ""
  }

  function Get(claims: ClaimSet, name: string): Value {
    if name in claims then claims[name] else Other
  }

  // ---- condition values --------------------------------------------------------------

  function ValueString(v: Value): Option<string> {
    match v
    case Text(s) => Some(Trim(s))
    case Number(s) => Some(s)
    case _ => None
  }

  /** The text of a list item, unless it is blank or no text. */
  function ItemText(v: Value): Option<string> {
    match ValueString(v)
    case Some(s) => if s == "" then None else Some(s)
    case None => None
  }

  /** The items a list value holds, seen as values. */
  function Items(v: Value): Option<seq<Value>> {
    match v
    case TextList(texts) => Some(AsTexts(texts))
    case AnyList(items) => Some(items)
    case _ => None
  }

  function AsTexts(texts: seq<string>): (r: seq<Value>)
    ensures |r| == |texts| && forall i :: 0 <= i < |r| ==> r[i] == Text(texts[i])
  {
    seq(|texts|, i requires 0 <= i < |texts| => Text(texts[i]))
  }

  /** The trimmed texts of a list of values; None when one of them has no text. */
  function TextsOf(items: seq<Value>): Option<seq<string>> {
    if items == [] then Some([])
    else
      var last := |items| - 1;
      match TextsOf(items[..last])
      case None => None
      case Some(texts) =>
        match ItemText(items[last])
        case None => None
        case Some(s) => Some(texts + [s])
  }

  /** What claimValueStringList yields, with its flag as the option. */
  function StringList(v: Value): Option<seq<string>> {
    match Items(v)
    case None => None
    case Some(items) => if TextsOf(items) == Some([]) then None else TextsOf(items)
  }

  /** The loop over a []string. */
  method TrimmedTexts(texts: seq<string>) returns (r: Option<seq<string>>)
    ensures r == TextsOf(AsTexts(texts))
  {
    var out: seq<string> := [];
    ghost var items := AsTexts(texts);
    for i := 0 to |texts|
      invariant TextsOf(items[..i]) == Some(out)
    {
      assert items[..i + 1][..i] == items[..i];
      var item := Trim(texts[i]);
      if item == "" {
        NoTexts(items, i + 1);
        return None;
      }
      out := out + [item];
    }
    assert items[..|items|] == items;
    return Some(out);
  }

  /** The loop over a []any. */
  method AnyTexts(items: seq<Value>) returns (r: Option<seq<string>>)
    ensures r == TextsOf(items)
  {
    var out: seq<string> := [];
    for i := 0 to |items|
      invariant TextsOf(items[..i]) == Some(out)
    {
      assert items[..i + 1][..i] == items[..i];
      var s := ValueString(items[i]);
      if s.None? || s.value == "" {
        NoTexts(items, i + 1);
        return None;
      }
      out := out + [s.value];
    }
    assert items[..|items|] == items;
    return Some(out);
  }

  method ClaimValueStringList(v: Value) returns (r: Option<seq<string>>)
    ensures r == StringList(v)
  {
    match v {
      case TextList(texts) =>
        r := TrimmedTexts(texts);
      case AnyList(items) =>
        r := AnyTexts(items);
      case _ =>
        r := None;
    }
    if r == Some([]) {
      r := None;
    }
  }

  lemma {:induction false} NoTexts(items: seq<Value>, i: nat)
    requires i <= |items| && TextsOf(items[..i]) == None
    ensures TextsOf(items) == None
  {
    if i < |items| {
      assert items[..|items| - 1][..i] == items[..i];
      NoTexts(items[..|items| - 1], i);
    } else {
      assert items[..i] == items;
    }
  }

  lemma {:induction false} TextsAt(items: seq<Value>, i: nat)
    requires TextsOf(items).Some? && i < |items|
    ensures |TextsOf(items).value| == |items| && ItemText(items[i]) == Some(TextsOf(items).value[i])
  {
    var init := items[..|items| - 1];
    if init != [] {
      TextsAt(init, if i < |init| then i else 0);
    }
  }

  // ---- normalisation -----------------------------------------------------------------

  /** One round of normalizeClaimConditions. */
  function Normalize(c: Condition): Result<Condition, ConditionError> {
    var name := Trim(c.claim);
    var op := Trim(c.op);
    if name == "" then Err(ClaimNameRequired)
    else if op == "eq" || op == "prefix" then
      match ValueString(c.value)
      case None => Err(ValueMustBeString)
      case Some(s) => if s == "" then Err(ValueMustBeString) else Ok(Condition(name, op, Text(s)))
    else if op == "in" then
      match StringList(c.value)
      case None => Err(ValueMustBeList)
      case Some(texts) => Ok(Condition(name, op, TextList(texts)))
    else Err(UnknownOp)
  }

  function NormalizeAll(conditions: seq<Condition>): Result<seq<Condition>, ConditionError> {
    if conditions == [] then Ok([])
    else
      match Normalize(conditions[0])
      case Err(e) => Err(e)
      case Ok(c) =>
        match NormalizeAll(conditions[1..])
        case Err(e) => Err(e)
        case Ok(rest) => Ok([c] + rest)
  }

  method NormalizeClaimConditions(claims: seq<Condition>) returns (r: Result<seq<Condition>, ConditionError>)
    ensures r == NormalizeAll(claims)
  {
    var out: seq<Condition> := [];
    assert claims[0..] == claims;
    if NormalizeAll(claims).Ok? {
      assert out + NormalizeAll(claims).value == NormalizeAll(claims).value;
    }
    for i := 0 to |claims|
      invariant NormalizeAll(claims)
             == match NormalizeAll(claims[i..])
                case Ok(rest) => Ok(out + rest)
                case Err(e) => Err(e)
    {
      assert claims[i..][1..] == claims[i + 1..];
      var name := Trim(claims[i].claim);
      var op := Trim(claims[i].op);
      var added: Condition;
      if name == "" {
        return Err(ClaimNameRequired);
      }
      if op == "eq" || op == "prefix" {
        var value := ValueString(claims[i].value);
        if value.None? || value.value == "" {
          return Err(ValueMustBeString);
        }
        added := Condition(name, op, Text(value.value));
      } else if op == "in" {
        var values := ClaimValueStringList(claims[i].value);
        if values.None? {
          return Err(ValueMustBeList);
        }
        added := Condition(name, op, TextList(values.value));
      } else {
        return Err(UnknownOp);
      }
      forall rest: seq<Condition>
        ensures (out + [added]) + rest == out + ([added] + rest)
      {
      }
      out := out + [added];
    }
    assert out + [] == out;
    return Ok(out);
  }

  /** The value is no number literal with space around it. */
  predicate Bare(v: Value) {
    v.Number? ==> Trim(v.literal) == v.literal
  }

  /** No number literal in the value has space around it, as none that JSON allows does. */
  predicate LiteralsBare(v: Value) {
    Bare(v) && (v.AnyList? ==> forall i :: 0 <= i < |v.items| ==> Bare(v.items[i]))
  }

  /** Normalising a normalised condition gives it back exactly when the literals that were turned
      into text had no space around them. */
  lemma NormalizeTwice(c: Condition)
    requires Normalize(c).Ok?
    ensures Normalize(Normalize(c).value) == Normalize(c) <==> LiteralsBare(c.value)
  {
    var d := Normalize(c).value;
    TrimIdempotent(c.claim);
    TrimIdempotent(c.op);
    if d.op == "in" {
      ListTwice(c.value);
    } else {
      match c.value {
        case Text(s) => TrimIdempotent(s);
        case Number(s) =>
          assert Trim(s) == "" || Normalize(d) == Ok(Condition(d.claim, d.op, Text(Trim(s))));
      }
    }
  }

  lemma ListTwice(v: Value)
    requires StringList(v).Some?
    ensures StringList(TextList(StringList(v).value)) == StringList(v) <==> LiteralsBare(v)
  {
    TextsKeptIff(Items(v).value);
  }

  lemma ItemTwice(v: Value)
    requires ItemText(v).Some?
    ensures ItemText(Text(ItemText(v).value)) == ItemText(v) <==> Bare(v)
  {
    if v.Text? {
      TrimIdempotent(v.text);
    }
  }

  /** Reading texts back as values returns them exactly when no number had space around it. */
  lemma {:induction false} TextsKeptIff(items: seq<Value>)
    requires TextsOf(items).Some?
    ensures TextsOf(AsTexts(TextsOf(items).value)) == TextsOf(items)
       <==> forall i :: 0 <= i < |items| ==> Bare(items[i])
  {
    if items != [] {
      var last := |items| - 1;
      var init := items[..last];
      var texts := TextsOf(items).value;
      TextsKeptIff(init);
      TextsAt(items, last);
      ItemTwice(items[last]);
      AppendedText(TextsOf(init).value, texts[last]);
      assert (forall i :: 0 <= i < |items| ==> Bare(items[i]))
        <==> Bare(items[last]) && forall i :: 0 <= i < |init| ==> Bare(init[i]);
    }
  }

  lemma AppendedText(texts: seq<string>, s: string)
    ensures TextsOf(AsTexts(texts + [s])) == Some(texts + [s])
       <==> TextsOf(AsTexts(texts)) == Some(texts) && ItemText(Text(s)) == Some(s)
  {
    var items := AsTexts(texts + [s]);
    assert items[..|texts|] == AsTexts(texts);
    if TextsOf(items) == Some(texts + [s]) {
      var init := TextsOf(AsTexts(texts)).value;
      TextsAt(items, |texts|);
      assert init + [s] == texts + [s];
      assert init == (init + [s])[..|texts|];
    }
  }

  /** A value that can be compared with: a non-blank text, or a number literal. */
  predicate Comparable(v: Value) {
    (v.Text? && Trim(v.text) != "") || (v.Number? && v.literal != "")
  }

  lemma {:induction false} TextsExist(items: seq<Value>)
    ensures TextsOf(items).Some? <==> forall i :: 0 <= i < |items| ==> Comparable(items[i])
    ensures TextsOf(items).Some? ==> |TextsOf(items).value| == |items|
  {
    if items != [] {
      TextsExist(items[..|items| - 1]);
    }
  }

  /** A condition is accepted exactly when it names a claim, asks for eq, prefix or in, and gives a
      comparable value, or for in a non-empty list of them. */
  lemma NormalizeSucceedsIff(c: Condition)
    ensures Normalize(c).Ok? <==>
              Trim(c.claim) != ""
              && match Trim(c.op)
                 case "eq" => Comparable(c.value)
                 case "prefix" => Comparable(c.value)
                 case "in" => Items(c.value).Some? && Items(c.value).value != []
                              && forall i :: 0 <= i < |Items(c.value).value| ==> Comparable(Items(c.value).value[i])
                 case _ => false
    ensures Normalize(c).Ok? ==> Normalize(c).value.claim == Trim(c.claim) && Normalize(c).value.op == Trim(c.op)
  {
    if Items(c.value).Some? {
      TextsExist(Items(c.value).value);
    }
  }

  /** A list of conditions is accepted exactly when each of them is. */
  lemma {:induction false} AllSucceedIff(conditions: seq<Condition>)
    ensures NormalizeAll(conditions).Ok? <==> forall i :: 0 <= i < |conditions| ==> Normalize(conditions[i]).Ok?
    ensures NormalizeAll(conditions).Ok? ==> |NormalizeAll(conditions).value| == |conditions|
  {
    if conditions != [] {
      AllSucceedIff(conditions[1..]);
      assert forall i :: 0 <= i < |conditions| - 1 ==> conditions[1..][i] == conditions[i + 1];
      assert forall i :: 0 < i < |conditions| ==> conditions[i] == conditions[1..][i - 1];
    }
  }

  lemma {:induction false} NormalizeAllAt(conditions: seq<Condition>, i: nat)
    requires NormalizeAll(conditions).Ok? && i < |conditions|
    ensures |NormalizeAll(conditions).value| == |conditions|
    ensures Normalize(conditions[i]) == Ok(NormalizeAll(conditions).value[i])
  {
    if |conditions| > 1 {
      NormalizeAllAt(conditions[1..], if i > 0 then i - 1 else 0);
    }
  }

  /** normalizeClaimConditions is idempotent exactly on lists without padded number literals. */
  lemma {:induction false} NormalizeAllTwice(conditions: seq<Condition>)
    requires NormalizeAll(conditions).Ok?
    ensures NormalizeAll(NormalizeAll(conditions).value) == NormalizeAll(conditions)
       <==> forall i :: 0 <= i < |conditions| ==> LiteralsBare(conditions[i].value)
  {
    if conditions != [] {
      var out := NormalizeAll(conditions).value;
      NormalizeTwice(conditions[0]);
      NormalizeAllTwice(conditions[1..]);
      assert out[0] == Normalize(conditions[0]).value && out[1..] == NormalizeAll(conditions[1..]).value;
      assert forall i :: 0 <= i < |conditions| - 1 ==> conditions[1..][i] == conditions[i + 1];
      if NormalizeAll(out) == Ok(out) {
        NormalizeAllAt(out, 0);
        assert NormalizeAll(out[1..]).value == NormalizeAll(out).value[1..];
      }
      assert (forall i :: 0 <= i < |conditions| ==> LiteralsBare(conditions[i].value))
        <==> LiteralsBare(conditions[0].value)
             && forall i :: 0 <= i < |conditions| - 1 ==> LiteralsBare(conditions[1..][i].value);
    }
  }

  // ---- matching ----------------------------------------------------------------------

  predicate ConditionMatches(c: Condition, claims: ClaimSet) {
    c.claim in claims &&
    var value := ClaimString(claims[c.claim]);
    if c.op == "eq" then c.value.Text? && value == c.value.text
    else if c.op == "prefix" then c.value.Text? && HasPrefix(value, c.value.text)
    else if c.op == "in" then StringList(c.value).Some? && value in StringList(c.value).value
    else false
  }

  predicate AllMatch(conditions: seq<Condition>, claims: ClaimSet) {
    forall i :: 0 <= i < |conditions| ==> ConditionMatches(conditions[i], claims)
  }

  method ClaimConditionMatches(c: Condition, claims: ClaimSet) returns (ok: bool)
    ensures ok == ConditionMatches(c, claims)
  {
    if c.claim !in claims {
      return false;
    }
    var value := ClaimString(claims[c.claim]);
    if c.op == "eq" {
      return c.value.Text? && value == c.value.text;
    } else if c.op == "prefix" {
      return c.value.Text? && HasPrefix(value, c.value.text);
    } else if c.op == "in" {
      var list := ClaimValueStringList(c.value);
      if list.None? {
        return false;
      }
      for i := 0 to |list.value|
        invariant value !in list.value[..i]
      {
        if value == list.value[i] {
          return true;
        }
      }
      return false;
    } else {
      return false;
    }
  }

  /** A condition as the store gives it back: a list of strings comes back untyped. */
  function Stored(c: Condition): Condition {
    if c.value.TextList? then c.(value := AnyList(AsTexts(c.value.texts))) else c
  }

  function StoredAll(conditions: seq<Condition>): (r: seq<Condition>)
    ensures |r| == |conditions| && forall i :: 0 <= i < |r| ==> r[i] == Stored(conditions[i])
  {
    seq(|conditions|, i requires 0 <= i < |conditions| => Stored(conditions[i]))
  }

  /** The store changes the type of a list, and neither matching nor normalising notices. */
  lemma StoredMatchesAlike(c: Condition, claims: ClaimSet)
    ensures ConditionMatches(Stored(c), claims) == ConditionMatches(c, claims)
    ensures Normalize(Stored(c)) == Normalize(c)
  {
  }

  lemma StoredAllMatchAlike(conditions: seq<Condition>, claims: ClaimSet)
    ensures AllMatch(StoredAll(conditions), claims) == AllMatch(conditions, claims)
  {
    forall i | 0 <= i < |conditions|
      ensures ConditionMatches(StoredAll(conditions)[i], claims) == ConditionMatches(conditions[i], claims)
    {
      StoredMatchesAlike(conditions[i], claims);
    }
  }

  /** What an accepted condition means: the claim is present and its text is the trimmed value,
      starts with it, or is one of the trimmed list items. */
  lemma NormalizedMeaning(c: Condition, claims: ClaimSet)
    requires Normalize(c).Ok? && LiteralsBare(c.value)
    ensures var d := Normalize(c).value;
            var value := ClaimString(Get(claims, Trim(c.claim)));
            ConditionMatches(d, claims) <==>
              Trim(c.claim) in claims
              && match Trim(c.op)
                 case "eq" => Some(value) == ValueString(c.value)
                 case "prefix" => HasPrefix(value, ValueString(c.value).value)
                 case _ => exists item :: item in Items(c.value).value && ItemText(item) == Some(value)
  {
    var d := Normalize(c).value;
    if d.op == "in" {
      ListTwice(c.value);
      var items := Items(c.value).value;
      forall i | 0 <= i < |items|
        ensures |d.value.texts| == |items| && ItemText(items[i]) == Some(d.value.texts[i])
      {
        TextsAt(items, i);
      }
      TextsAt(items, 0);
      assert forall s :: s in d.value.texts <==> exists item :: item in items && ItemText(item) == Some(s);
    }
  }
}
