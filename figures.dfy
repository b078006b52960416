/** The catalogue's entities and the order in which their string fields compare. */
module Figures {

  /** One figure of the catalogue. The views read only the four named fields;
      every other property of the record is carried along, unread, in `others`. */
  datatype Figure = Figure(
    name: string,
    birthYear: string,
    gender: string,
    skinColor: string,
    others: map<string, string>)

  /** The property names the views sort by, spelled as in the records. */
  const NameField := "name"
  const BirthYearField := "birth_year"
  const GenderField := "gender"
  const SkinColorField := "skin_color"

  predicate IsField(field: string) {
    field == NameField || field == BirthYearField || field == GenderField || field == SkinColorField
  }

  /** The figure as the record the views index: its other properties, then the four
      named ones under their property names. */
  function Record(fig: Figure): map<string, string> {
    fig.others[NameField := fig.name][BirthYearField := fig.birthYear]
              [GenderField := fig.gender][SkinColorField := fig.skinColor]
  }

  /** `figure[field]` for one of the four sortable properties: the record's entry under that name. */
  function Key(fig: Figure, field: string): (r: string)
    requires IsField(field)
    ensures field in Record(fig) && r == Record(fig)[field]
  {
    if field == NameField then fig.name
    else if field == BirthYearField then fig.birthYear
    else if field == GenderField then fig.gender
    else fig.skinColor
  }

  /** `a < b` on strings: at the first index where they differ `a` has the smaller
      character, or `a` is a proper prefix of `b`. */
  predicate Less(a: string, b: string)
    ensures Less(a, b) <==> exists k :: LessAt(a, b, k)
    decreases |a|
  {
    if |a| == 0 then assert |b| > 0 ==> LessAt(a, b, 0); |b| > 0
    else if |b| == 0 then false
    else if a[0] != b[0] then assert a[0] < b[0] ==> LessAt(a, b, 0); a[0] < b[0]
    else LessAtShift(a, b); Less(a[1..], b[1..])
  }

  /** `a` and `b` agree before index `k`, `k` is an index of `b`, and at `k` either `a` has
      ended or has the smaller character. */
  ghost predicate LessAt(a: string, b: string, k: int) {
    0 <= k <= |a| && k < |b| && a[..k] == b[..k] && (k == |a| || a[k] < b[k])
  }

  /** Dropping an equal first character moves the first difference one index down. */
  lemma LessAtShift(a: string, b: string)
    requires |a| > 0 && |b| > 0 && a[0] == b[0]
    ensures (exists k :: LessAt(a[1..], b[1..], k)) <==> (exists k :: LessAt(a, b, k))
  {
    if k :| LessAt(a[1..], b[1..], k) {
      assert a[..k + 1] == [a[0]] + a[1..][..k];
      assert b[..k + 1] == [b[0]] + b[1..][..k];
      assert LessAt(a, b, k + 1);
    }
    if k :| LessAt(a, b, k) {
      assert k != 0;
      assert a[1..][..k - 1] == a[..k][1..];
      assert b[1..][..k - 1] == b[..k][1..];
      assert LessAt(a[1..], b[1..], k - 1);
    }
  }

  lemma {:induction false} LessIrreflexive(a: string)
    ensures !Less(a, a)
    decreases |a|
  {
    if |a| > 0 {
      LessIrreflexive(a[1..]);
    }
  }

  lemma {:induction false} LessAsymmetric(a: string, b: string)
    ensures !(Less(a, b) && Less(b, a))
    decreases |a|
  {
    if |a| > 0 && |b| > 0 && a[0] == b[0] {
      LessAsymmetric(a[1..], b[1..]);
    }
  }

  /** Any two strings are equal or one of them is less than the other. */
  lemma {:induction false} LessTotal(a: string, b: string)
    ensures Less(a, b) || a == b || Less(b, a)
    decreases |a|
  {
    if |a| > 0 && |b| > 0 && a[0] == b[0] {
      LessTotal(a[1..], b[1..]);
      if a[1..] == b[1..] {
        assert a == [a[0]] + a[1..] && b == [b[0]] + b[1..];
      }
    }
  }

  lemma {:induction false} LessTransitive(a: string, b: string, c: string)
    requires Less(a, b) && Less(b, c)
    ensures Less(a, c)
    decreases |a|
  {
    if |a| > 0 && a[0] == b[0] && b[0] == c[0] {
      LessTransitive(a[1..], b[1..], c[1..]);
    }
  }
}
