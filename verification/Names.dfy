/** Names of apps, models and columns, and what a relation's target refers to. */
module Names {
  import opened Wrappers

  function LowerChar(c: char): char {
    if 'A' <= c <= 'Z' then (c as int + 32) as char else c
  }

  function Lower(s: string): (r: string)
    ensures |r| == |s| && forall i :: 0 <= i < |s| ==> r[i] == LowerChar(s[i])
  {
    seq(|s|, i requires 0 <= i < |s| => LowerChar(s[i]))
  }

  predicate EqualFold(a: string, b: string) {
    Lower(a) == Lower(b)
  }

  datatype ModelKey = ModelKey(app: string, model: string)

  /** The key of the model called name in app. */
  function KeyOf(app: string, name: string): ModelKey {
    ModelKey(app, Lower(name))
  }

  /** The position of the first '.' of s at or after i, or |s|. */
  function DotFrom(s: string, i: nat): (d: nat)
    requires i <= |s|
    ensures i <= d <= |s| && (d < |s| ==> s[d] == '.') && forall j :: i <= j < d ==> s[j] != '.'
    decreases |s| - i
  {
    if i == |s| || s[i] == '.' then i else DotFrom(s, i + 1)
  }

  /** The model that "app.Model", or "Model" inside app, stands for. */
  function ResolveRelation(ref: string, app: string): ModelKey {
    var d := DotFrom(ref, 0);
    if d < |ref| then ModelKey(ref[..d], Lower(ref[d + 1..])) else KeyOf(app, ref)
  }

  predicate HasDot(s: string) {
    '.' in s
  }

  lemma ResolveQualified(app: string, name: string, where_: string)
    requires !HasDot(app)
    ensures ResolveRelation(app + "." + name, where_) == KeyOf(app, name)
  {
    var ref := app + "." + name;
    var d := DotFrom(ref, 0);
    assert ref[|app|] == '.';
    assert forall j :: 0 <= j < |app| ==> ref[j] == app[j] && ref[j] != '.';
    assert ref[..d] == app && ref[d + 1..] == name;
  }
}
