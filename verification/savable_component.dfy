/**
  * The base behaviour every savable component (field type, widget, ...) shares:
  * whether it is new, whether it is selectable, and its settings as an ordered map.
  */
module SavableComponent {
  import opened Results
  import opened Strings
  import opened Php
  import opened Seqs

  /** Every savable component type may be offered for selection. */
  function IsSelectable(): (r: bool)
    ensures r
  {
    true
  }

  /** The base class renders no settings form. */
  function GetSettingsHtml(): (r: Option<string>)
    ensures r.None?
  {
    None
  }

  /** The component has not been stored yet: its id is falsy, or a placeholder such as `new12`. */
  predicate IsNew(id: Value) {
    Falsy(id) || StrncmpEqual(ToStr(id), "new", 3)
  }

  /** `IsNew` holds exactly for falsy ids and for strings that start with `new` (case-sensitive). */
  lemma IsNewIff(id: Value)
    ensures IsNew(id) <==> Falsy(id) || (id.Str? && IsPrefix("new", id.s))
  {
    StrncmpNewIsPrefix(ToStr(id));
    match id
    case Int(i) =>
      IntStringStartsWithDigitOrMinus(i);
    case _ =>
  }

  /** Examples of `IsNew`: falsy ids and `new…` placeholders are new; `5` and `"New1"` are not. */
  lemma IsNewExamples()
    ensures IsNew(Null) && IsNew(Int(0)) && IsNew(Str("")) && IsNew(Str("0")) && IsNew(Bool(false))
    ensures IsNew(Str("new")) && IsNew(Str("new12"))
    ensures !IsNew(Int(5)) && !IsNew(Str("New1")) && !IsNew(Str("ne")) && !IsNew(Bool(true))
  {
    IsNewIff(Str("new"));
    IsNewIff(Str("new12"));
    IsNewIff(Int(5));
    IsNewIff(Str("New1"));
    assert "New1"[0] != "new"[0];
    IsNewIff(Str("ne"));
    IsNewIff(Bool(true));
  }

  /** The settings array: attribute names with their values, in insertion order. */
  type Settings = seq<(string, Value)>

  datatype SettingsError = UnknownProperty(name: string)

  /** The keys of the settings array, in insertion order. */
  function Keys(m: Settings): (ks: seq<string>)
    ensures |ks| == |m| && forall i :: 0 <= i < |m| ==> ks[i] == m[i].0
  {
    Map((e: (string, Value)) => e.0, m)
  }

  /**
    * The distinct elements of `xs` in the order of their first occurrence: the key order
    * of a PHP array filled by assigning to `xs[0]`, `xs[1]`, ... in turn.
    */
  function Dedup(xs: seq<string>): (r: seq<string>)
    ensures NoDuplicates(r)
    ensures forall x :: x in r <==> x in xs
  {
    if xs == [] then []
    else
      var d := Dedup(xs[..|xs| - 1]);
      var x := xs[|xs| - 1];
      if x in d then d else d + [x]
  }

  /** With distinct attribute names the key order is the attribute order itself. */
  lemma {:induction false} DedupOfDistinct(xs: seq<string>)
    requires NoDuplicates(xs)
    ensures Dedup(xs) == xs
  {
    if xs != [] {
      var init := xs[..|xs| - 1];
      assert NoDuplicates(init);
      DedupOfDistinct(init);
      assert xs[|xs| - 1] !in init;
      assert init + [xs[|xs| - 1]] == xs;
    }
  }

  /** `$settings[k] = v`: overwrite in place when `k` is present, append otherwise. */
  function Put(m: Settings, k: string, v: Value): (r: Settings)
    requires NoDuplicates(Keys(m))
    ensures NoDuplicates(Keys(r))
    ensures k in Keys(m) ==> Keys(r) == Keys(m)
    ensures k !in Keys(m) ==> Keys(r) == Keys(m) + [k]
    ensures forall i :: 0 <= i < |r| ==> r[i].1 == (if r[i].0 == k then v else m[i].1)
  {
    if k in Keys(m) then
      var i := IndexOf(Keys(m), k);
      var r := m[i := (k, v)];
      assert Keys(r) == Keys(m) by {
        assert forall j :: 0 <= j < |m| ==> Keys(r)[j] == Keys(m)[j];
      }
      r
    else
      var r := m + [(k, v)];
      assert Keys(r) == Keys(m) + [k] by {
        assert forall j :: 0 <= j < |r| ==> Keys(r)[j] == (Keys(m) + [k])[j];
      }
      r
  }

  /** Every entry of `m` holds the current value of the property it names. */
  predicate ReadFrom(m: Settings, properties: map<string, Value>) {
    forall i :: 0 <= i < |m| ==> m[i].0 in properties && m[i].1 == properties[m[i].0]
  }

  lemma PutReadFrom(m: Settings, k: string, properties: map<string, Value>)
    requires NoDuplicates(Keys(m)) && ReadFrom(m, properties) && k in properties
    ensures ReadFrom(Put(m, k, properties[k]), properties)
  {
    var r := Put(m, k, properties[k]);
    forall i | 0 <= i < |r|
      ensures r[i].0 in properties && r[i].1 == properties[r[i].0]
    {
      if r[i].0 != k {
        assert Keys(r)[i] == Keys(m)[i];
      }
    }
  }

  lemma DedupSnoc(xs: seq<string>, n: nat)
    requires n < |xs|
    ensures Dedup(xs[..n + 1]) == if xs[n] in Dedup(xs[..n]) then Dedup(xs[..n]) else Dedup(xs[..n]) + [xs[n]]
  {
    assert xs[..n + 1][..n] == xs[..n];
  }

  /**
    * `getSettings()`: reads every name of `attributes` (the list the class declares as its
    * settings) from the component's `properties`. Reading an undefined property throws.
    */
  method GetSettings(attributes: seq<string>, properties: map<string, Value>)
    returns (r: Result<Settings, SettingsError>)
    ensures r.Success? <==> forall a :: a in attributes ==> a in properties
    ensures r.Failure? ==> exists k :: 0 <= k < |attributes| && attributes[k] == r.error.name
                                   && attributes[k] !in properties
                                   && forall j :: 0 <= j < k ==> attributes[j] in properties
    ensures r.Success? ==> Keys(r.value) == Dedup(attributes)
    ensures r.Success? ==> ReadFrom(r.value, properties)
  {
    var settings: Settings := [];
    var n := 0;
    while n < |attributes|
      invariant n <= |attributes|
      invariant forall j :: 0 <= j < n ==> attributes[j] in properties
      invariant Keys(settings) == Dedup(attributes[..n])
      invariant ReadFrom(settings, properties)
    {
      var a := attributes[n];
      if a !in properties {
        return Failure(UnknownProperty(a));
      }
      DedupSnoc(attributes, n);
      PutReadFrom(settings, a, properties);
      settings := Put(settings, a, properties[a]);
      n := n + 1;
    }
    assert attributes[..n] == attributes;
    return Success(settings);
  }

  /** With distinct attribute names the settings keys are exactly the attributes, in order. */
  lemma SettingsKeysAreAttributes(attributes: seq<string>, r: Settings)
    requires NoDuplicates(attributes) && Keys(r) == Dedup(attributes)
    ensures Keys(r) == attributes
  {
    DedupOfDistinct(attributes);
  }
}
