/**
 * `getColumnPurpose`: a column is described by the first of six keyword groups whose words
 * occur in its lower-cased key, checked in a fixed priority order; a key with none of the
 * words gets the general description.
 */
module ColumnPurpose {
  import opened JsText

  datatype Purpose = Financial | Temporal | CustomerAttribute | Categorical | Volume | Ratio | General

  /** The sentence returned for each purpose. */
  function Description(p: Purpose): string {
    match p
    case Financial => "Financial metric for revenue analysis"
    case Temporal => "Temporal dimension for trend analysis"
    case CustomerAttribute => "Customer/member identifier or attribute"
    case Categorical => "Categorical identifier for segmentation"
    case Volume => "Volume or quantity metric"
    case Ratio => "Performance ratio or percentage metric"
    case General => "Business attribute for analysis and segmentation"
  }

  /** `words.some(w => s.includes(w))`. */
  predicate HasAny(s: string, words: seq<string>) {
    exists i :: 0 <= i < |words| && Contains(s, words[i])
  }

  const FinancialWords: seq<string> := ["revenue", "amount", "price"]
  const TemporalWords: seq<string> := ["date", "time"]
  const CustomerWords: seq<string> := ["member", "customer", "user"]
  const CategoricalWords: seq<string> := ["name", "title"]
  const VolumeWords: seq<string> := ["count", "quantity", "number"]
  const RatioWords: seq<string> := ["rate", "percentage"]

  /** The purpose picked by the chain of `if`s, on the lower-cased key: the first-match rule
    * over the keyword table in priority order. */
  function Classify(key: string): (r: Purpose)
    ensures r == FirstMatch(ToLower(key), Rules)
  {
    var k := ToLower(key);
    RulesInOrder(k);
    HasAny3(k, "revenue", "amount", "price");
    HasAny2(k, "date", "time");
    HasAny3(k, "member", "customer", "user");
    HasAny2(k, "name", "title");
    HasAny3(k, "count", "quantity", "number");
    HasAny2(k, "rate", "percentage");
    if Contains(k, "revenue") || Contains(k, "amount") || Contains(k, "price") then Financial
    else if Contains(k, "date") || Contains(k, "time") then Temporal
    else if Contains(k, "member") || Contains(k, "customer") || Contains(k, "user") then CustomerAttribute
    else if Contains(k, "name") || Contains(k, "title") then Categorical
    else if Contains(k, "count") || Contains(k, "quantity") || Contains(k, "number") then Volume
    else if Contains(k, "rate") || Contains(k, "percentage") then Ratio
    else General
  }

  /** `getColumnPurpose(column)`: the general sentence exactly when the key holds none of the
    * keywords. */
  function GetColumnPurpose(key: string): (r: string)
    ensures r == "Business attribute for analysis and segmentation" <==>
              forall i :: 0 <= i < |Rules| ==> !HasAny(ToLower(key), Rules[i].words)
  {
    ClassifyGeneral(key);
    GeneralDescriptionOnly(Classify(key));
    Description(Classify(key))
  }

  // ---------------------------------------------------------------------------
  // The rule table
  // ---------------------------------------------------------------------------

  datatype Rule = Rule(words: seq<string>, purpose: Purpose)

  /** The keyword groups in priority order. */
  const Rules: seq<Rule> := [
    Rule(FinancialWords, Financial),
    Rule(TemporalWords, Temporal),
    Rule(CustomerWords, CustomerAttribute),
    Rule(CategoricalWords, Categorical),
    Rule(VolumeWords, Volume),
    Rule(RatioWords, Ratio)
  ]

  /** The purpose of the first rule with a word in `s`, or `General`. */
  function FirstMatch(s: string, rules: seq<Rule>): Purpose {
    if rules == [] then General
    else if HasAny(s, rules[0].words) then rules[0].purpose
    else FirstMatch(s, rules[1..])
  }

  /** The purpose chosen is the general one or that of a rule with a word in `s`; with no such
    * rule it is the general one. */
  lemma {:induction false} FirstMatchSound(s: string, rules: seq<Rule>)
    ensures FirstMatch(s, rules) == General
            || exists i :: 0 <= i < |rules| && rules[i].purpose == FirstMatch(s, rules) && HasAny(s, rules[i].words)
    ensures (forall i :: 0 <= i < |rules| ==> !HasAny(s, rules[i].words)) ==> FirstMatch(s, rules) == General
  {
    if rules != [] && !HasAny(s, rules[0].words) {
      var tail := rules[1..];
      FirstMatchSound(s, tail);
      assert forall i :: 0 <= i < |tail| ==> tail[i] == rules[i + 1];
      if forall i :: 0 <= i < |rules| ==> !HasAny(s, rules[i].words) {
        assert forall i :: 0 <= i < |tail| ==> !HasAny(s, tail[i].words);
      }
    }
  }

  lemma HasAny3(s: string, a: string, b: string, c: string)
    ensures HasAny(s, [a, b, c]) <==> Contains(s, a) || Contains(s, b) || Contains(s, c)
  {
    if Contains(s, a) { assert [a, b, c][0] == a; }
    if Contains(s, b) { assert [a, b, c][1] == b; }
    if Contains(s, c) { assert [a, b, c][2] == c; }
  }

  lemma HasAny2(s: string, a: string, b: string)
    ensures HasAny(s, [a, b]) <==> Contains(s, a) || Contains(s, b)
  {
    if Contains(s, a) { assert [a, b][0] == a; }
    if Contains(s, b) { assert [a, b][1] == b; }
  }

  /** The first rule with a word in `s` decides. */
  lemma {:induction false} FirstMatchHit(s: string, rules: seq<Rule>, j: nat)
    requires j < |rules| && HasAny(s, rules[j].words)
    requires forall i :: 0 <= i < j ==> !HasAny(s, rules[i].words)
    ensures FirstMatch(s, rules) == rules[j].purpose
  {
    if j > 0 {
      var tail := rules[1..];
      assert !HasAny(s, rules[0].words);
      assert tail[j - 1] == rules[j];
      forall i | 0 <= i < j - 1 ensures !HasAny(s, tail[i].words) {
        assert tail[i] == rules[i + 1];
      }
      FirstMatchHit(s, tail, j - 1);
    }
  }

  /** When the purposes are all different and none is the general one, a rule's purpose is
    * chosen only when that rule is the first with a word in `s`. */
  lemma {:induction false} FirstMatchOnly(s: string, rules: seq<Rule>, j: nat)
    requires j < |rules|
    requires forall a, b :: 0 <= a < b < |rules| ==> rules[a].purpose != rules[b].purpose
    requires forall a :: 0 <= a < |rules| ==> rules[a].purpose != General
    requires FirstMatch(s, rules) == rules[j].purpose
    ensures HasAny(s, rules[j].words) && forall i :: 0 <= i < j ==> !HasAny(s, rules[i].words)
  {
    var tail := rules[1..];
    if HasAny(s, rules[0].words) {
      assert rules[0].purpose == rules[j].purpose;
    } else {
      assert FirstMatch(s, rules) == FirstMatch(s, tail);
      if j == 0 {
        FirstMatchSound(s, tail);
        assert false;
      }
      forall a, b | 0 <= a < b < |tail| ensures tail[a].purpose != tail[b].purpose {
        assert tail[a] == rules[a + 1] && tail[b] == rules[b + 1];
      }
      forall a | 0 <= a < |tail| ensures tail[a].purpose != General {
        assert tail[a] == rules[a + 1];
      }
      assert tail[j - 1] == rules[j];
      FirstMatchOnly(s, tail, j - 1);
      forall i | 0 < i < j ensures !HasAny(s, rules[i].words) {
        assert rules[i] == tail[i - 1];
      }
    }
  }

  /** A key is classified under a group exactly when one of that group's words occurs in it and
    * no word of an earlier group does. */
  lemma FirstMatchIff(s: string, rules: seq<Rule>, j: nat)
    requires j < |rules|
    requires forall a, b :: 0 <= a < b < |rules| ==> rules[a].purpose != rules[b].purpose
    requires forall a :: 0 <= a < |rules| ==> rules[a].purpose != General
    ensures FirstMatch(s, rules) == rules[j].purpose <==>
              HasAny(s, rules[j].words) && forall i :: 0 <= i < j ==> !HasAny(s, rules[i].words)
  {
    if FirstMatch(s, rules) == rules[j].purpose {
      FirstMatchOnly(s, rules, j);
    }
    if HasAny(s, rules[j].words) && forall i :: 0 <= i < j ==> !HasAny(s, rules[i].words) {
      FirstMatchHit(s, rules, j);
    }
  }

  /** With no rule of the general purpose, the general purpose is chosen exactly when no rule
    * has a word in `s`. */
  lemma {:induction false} FirstMatchGeneral(s: string, rules: seq<Rule>)
    requires forall a :: 0 <= a < |rules| ==> rules[a].purpose != General
    ensures FirstMatch(s, rules) == General <==> forall i :: 0 <= i < |rules| ==> !HasAny(s, rules[i].words)
  {
    if rules != [] && !HasAny(s, rules[0].words) {
      var tail := rules[1..];
      FirstMatchGeneral(s, tail);
      assert forall i :: 1 <= i < |rules| ==> rules[i] == tail[i - 1];
    }
  }

  /** The general description is given exactly when the key has none of the keywords. */
  lemma ClassifyGeneral(key: string)
    ensures Classify(key) == General <==> forall i :: 0 <= i < |Rules| ==> !HasAny(ToLower(key), Rules[i].words)
  {
    RulesDistinct();
    FirstMatchGeneral(ToLower(key), Rules);
  }

  /** A key gets the purpose of group `j` exactly when one of that group's words occurs in it
    * and no word of an earlier group does: a key mentioning revenue is financial whatever else
    * it mentions, a date column is temporal unless a financial word comes first, and so on. */
  lemma ClassifyIff(key: string, j: nat)
    requires j < |Rules|
    ensures Classify(key) == Rules[j].purpose <==>
              HasAny(ToLower(key), Rules[j].words) && forall i :: 0 <= i < j ==> !HasAny(ToLower(key), Rules[i].words)
  {
    RulesDistinct();
    FirstMatchIff(ToLower(key), Rules, j);
  }

  /** The table's rules taken one after another. */
  lemma RulesInOrder(k: string)
    ensures FirstMatch(k, Rules) ==
              if HasAny(k, FinancialWords) then Financial
              else if HasAny(k, TemporalWords) then Temporal
              else if HasAny(k, CustomerWords) then CustomerAttribute
              else if HasAny(k, CategoricalWords) then Categorical
              else if HasAny(k, VolumeWords) then Volume
              else if HasAny(k, RatioWords) then Ratio
              else General
  {
    assert Rules[6..] == [];
    forall i | 0 <= i < 6 ensures Rules[i..][0] == Rules[i] && Rules[i..][1..] == Rules[i + 1..] { }
    assert FirstMatch(k, Rules[5..]) == if HasAny(k, RatioWords) then Ratio else General;
    assert FirstMatch(k, Rules[4..]) == if HasAny(k, VolumeWords) then Volume else FirstMatch(k, Rules[5..]);
    assert FirstMatch(k, Rules[3..]) == if HasAny(k, CategoricalWords) then Categorical else FirstMatch(k, Rules[4..]);
    assert FirstMatch(k, Rules[2..]) == if HasAny(k, CustomerWords) then CustomerAttribute else FirstMatch(k, Rules[3..]);
    assert FirstMatch(k, Rules[1..]) == if HasAny(k, TemporalWords) then Temporal else FirstMatch(k, Rules[2..]);
  }

  /** Only the general purpose has the general sentence. */
  lemma GeneralDescriptionOnly(p: Purpose)
    ensures Description(p) == Description(General) <==> p == General
  {
    if p != General {
      assert Description(p)[0] != 'B';
    }
  }

  /** Each group has its own purpose, none of them the general one. */
  lemma RulesDistinct()
    ensures forall a, b :: 0 <= a < b < |Rules| ==> Rules[a].purpose != Rules[b].purpose
    ensures forall a :: 0 <= a < |Rules| ==> Rules[a].purpose != General
  {
    var purposes := [Financial, Temporal, CustomerAttribute, Categorical, Volume, Ratio];
    assert forall a :: 0 <= a < |Rules| ==> Rules[a].purpose == purposes[a];
  }

  /** Upper and lower case in the key make no difference. */
  lemma {:induction false} ClassifyIgnoresCase(key: string)
    ensures Classify(ToLower(key)) == Classify(key)
  {
    ToLowerIdempotent(key);
  }

  lemma ToLowerIdempotent(s: string)
    ensures ToLower(ToLower(s)) == ToLower(s)
  {
    var t := ToLower(s);
    assert forall i :: 0 <= i < |t| ==> ToLowerAscii(t[i]) == t[i];
  }

  /** `priceDate` is financial: the financial words come first. */
  lemma PriceDateIsFinancial()
    ensures GetColumnPurpose("priceDate") == "Financial metric for revenue analysis"
  {
    var k := ToLower("priceDate");
    assert k[0..5] == "price";
    ContainsAt(k, "price", 0);
  }
}
