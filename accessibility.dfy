/**
  The accessibility labels: the fixed mapping from feature to its French
  description, and the list comprehension that keeps the description of
  every flag equal to 1, in the order the flags are listed.
 */
module Accessibility {
  import opened Cells

  /** The seven keys of the description mapping. */
  datatype Feature =
    | NextStopVocal
    | NextStopVisual
    | NextBusVocal
    | NextBusVisual
    | ProblemVisual
    | ProblemVocal
    | Wheelchair

  /** The description stored for a feature (the "pertubées" spelling is the
      system's own). */
  function Description(f: Feature): string
  {
    match f
    case NextStopVocal => "Annonce sonore prochain arrêt"
    case NextStopVisual => "Annonce visuelle prochain arrêt"
    case NextBusVocal => "Annonce sonore prochain passage"
    case NextBusVisual => "Annonce visuelle prochain passage"
    case ProblemVisual => "Annonce visuelle situations pertubées"
    case ProblemVocal => "Annonce sonore situations pertubées"
    case Wheelchair => "Accessible en fauteuil roulant"
  }

  /** No two features share a description. */
  lemma DescriptionInjective(f: Feature, g: Feature)
    requires Description(f) == Description(g)
    ensures f == g
  {
    var d := Description(f);
    match f
    case NextStopVocal => assert d[8] == 's' && d[|d| - 1] == 't';
    case NextStopVisual => assert d[8] == 'v' && d[|d| - 1] == 't';
    case NextBusVocal => assert d[8] == 's' && d[|d| - 1] == 'e';
    case NextBusVisual => assert d[8] == 'v' && d[|d| - 1] == 'e';
    case ProblemVisual => assert d[8] == 'v' && d[|d| - 1] == 's';
    case ProblemVocal => assert d[8] == 's' && d[|d| - 1] == 's';
    case Wheelchair => assert d[8] == 'l';
  }

  /** A flag as the comprehension compares it: the result of `int(...)`, or,
      for the one column the importer does not coerce, the raw cell. */
  datatype FlagValue = Coerced(i: int) | Uncoerced(c: Cell)

  /** Python's `v == 1`. An int is equal to 1 only when it is 1; the raw cell,
      after `or 0`, only when it is the number 1 (text "1" is not). */
  predicate EqualsOne(v: FlagValue) {
    match v
    case Coerced(i) => i == 1
    case Uncoerced(c) => Or(c, Num(0)) == Num(1)
  }

  /** The uncoerced flag is set exactly by a numeric 1. */
  lemma UncoercedEqualsOne(c: Cell)
    ensures EqualsOne(Uncoerced(c)) <==> c == Num(1)
  {
  }

  /** The features whose flag equals 1, in the order the flags are listed:
      the filter of the comprehension. */
  function SetFeatures(flags: seq<(Feature, FlagValue)>): (r: seq<Feature>)
    ensures |r| <= |flags|
  {
    if flags == [] then []
    else Chosen(flags[0].0, EqualsOne(flags[0].1)) + SetFeatures(flags[1..])
  }

  /** `f` if its flag is set, nothing otherwise. */
  function Chosen(f: Feature, selected: bool): seq<Feature>
  {
    if selected then [f] else []
  }

  /** The description of each feature, in order. */
  function Descriptions(fs: seq<Feature>): (r: seq<string>)
    ensures |r| == |fs| && forall i | 0 <= i < |fs| :: r[i] == Description(fs[i])
  {
    seq(|fs|, i requires 0 <= i < |fs| => Description(fs[i]))
  }

  /** `[description(k) for k, v in flags if v == 1]` */
  function Labels(flags: seq<(Feature, FlagValue)>): (r: seq<string>)
    ensures |r| <= |flags|
  {
    Descriptions(SetFeatures(flags))
  }

  /** A feature's description is listed exactly when the feature is. */
  lemma InDescriptions(f: Feature, fs: seq<Feature>)
    ensures Description(f) in Descriptions(fs) <==> f in fs
  {
    var r := Descriptions(fs);
    if Description(f) in r {
      var i :| 0 <= i < |r| && r[i] == Description(f);
      DescriptionInjective(f, fs[i]);
    }
    if f in fs {
      var i :| 0 <= i < |fs| && fs[i] == f;
      assert r[i] == Description(f);
    }
  }

  /** A feature is selected exactly when some flag of it equals 1. */
  lemma {:induction false} SetFeaturesMembership(flags: seq<(Feature, FlagValue)>, f: Feature)
    ensures f in SetFeatures(flags)
        <==> exists i | 0 <= i < |flags| :: flags[i].0 == f && EqualsOne(flags[i].1)
  {
    if flags != [] {
      SetFeaturesMembership(flags[1..], f);
      if exists i | 1 <= i < |flags| :: flags[i].0 == f && EqualsOne(flags[i].1) {
        var i :| 1 <= i < |flags| && flags[i].0 == f && EqualsOne(flags[i].1);
        assert flags[1..][i - 1] == flags[i];
      }
      if exists i | 0 <= i < |flags[1..]| :: flags[1..][i].0 == f && EqualsOne(flags[1..][i].1) {
        var i :| 0 <= i < |flags[1..]| && flags[1..][i].0 == f && EqualsOne(flags[1..][i].1);
        assert flags[i + 1] == flags[1..][i];
      }
    }
  }

  /** A description is among the labels exactly when some flag of its
      feature equals 1. */
  lemma LabelsMembership(flags: seq<(Feature, FlagValue)>, f: Feature)
    ensures Description(f) in Labels(flags)
        <==> exists i | 0 <= i < |flags| :: flags[i].0 == f && EqualsOne(flags[i].1)
  {
    SetFeaturesMembership(flags, f);
    InDescriptions(f, SetFeatures(flags));
  }

  /** The flags of a route, in the order the importer lists them:
      wheelchair, next-stop visual, next-stop vocal. */
  function RouteFlags(wheelchair: int, nextStopVocal: int, nextStopVisual: int): seq<(Feature, FlagValue)>
  {
    [(Wheelchair, Coerced(wheelchair)),
     (NextStopVisual, Coerced(nextStopVisual)),
     (NextStopVocal, Coerced(nextStopVocal))]
  }

  /** A route's labels: at most three, the descriptions of the features
      whose flag equals 1, in the fixed order wheelchair, next-stop visual,
      next-stop vocal. */
  function RouteLabels(wheelchair: int, nextStopVocal: int, nextStopVisual: int): (r: seq<string>)
    ensures |r| <= 3
    ensures r == Descriptions(Chosen(Wheelchair, wheelchair == 1)
                            + Chosen(NextStopVisual, nextStopVisual == 1)
                            + Chosen(NextStopVocal, nextStopVocal == 1))
  {
    var flags := RouteFlags(wheelchair, nextStopVocal, nextStopVisual);
    var f1 := flags[1..];
    var f2 := f1[1..];
    assert SetFeatures(f2[1..]) == [];
    assert SetFeatures(f2) == Chosen(NextStopVocal, nextStopVocal == 1);
    assert SetFeatures(f1) == Chosen(NextStopVisual, nextStopVisual == 1) + SetFeatures(f2);
    Labels(flags)
  }

  /** A description is among a route's labels exactly when it is the
      description of a route feature whose flag equals 1: each label is
      present exactly when its flag is 1, and no other description appears. */
  lemma RouteLabelPresence(wheelchair: int, nextStopVocal: int, nextStopVisual: int)
    ensures var r := RouteLabels(wheelchair, nextStopVocal, nextStopVisual);
      forall f :: Description(f) in r <==>
        || (f == Wheelchair && wheelchair == 1)
        || (f == NextStopVisual && nextStopVisual == 1)
        || (f == NextStopVocal && nextStopVocal == 1)
  {
    var fs := Chosen(Wheelchair, wheelchair == 1)
            + Chosen(NextStopVisual, nextStopVisual == 1)
            + Chosen(NextStopVocal, nextStopVocal == 1);
    forall f
      ensures Description(f) in Descriptions(fs) <==>
        || (f == Wheelchair && wheelchair == 1)
        || (f == NextStopVisual && nextStopVisual == 1)
        || (f == NextStopVocal && nextStopVocal == 1)
    {
      InDescriptions(f, fs);
    }
  }

  /** The flags of a stop, in the order the importer lists them: wheelchair,
      next-bus visual, next-bus vocal, problem vocal, problem visual; the last
      is the raw cell. */
  function StopFlags(wheelchair: int, nextBusVocal: int, nextBusVisual: int,
                     problemVocal: int, problemVisual: Cell): seq<(Feature, FlagValue)>
  {
    [(Wheelchair, Coerced(wheelchair)),
     (NextBusVisual, Coerced(nextBusVisual)),
     (NextBusVocal, Coerced(nextBusVocal)),
     (ProblemVocal, Coerced(problemVocal)),
     (ProblemVisual, Uncoerced(problemVisual))]
  }

  /** The features a stop's flags select, in order; the problem-visual flag
      selects only as the number 1. */
  function StopFeatures(wheelchair: int, nextBusVocal: int, nextBusVisual: int,
                        problemVocal: int, problemVisual: Cell): seq<Feature>
  {
    Chosen(Wheelchair, wheelchair == 1)
    + Chosen(NextBusVisual, nextBusVisual == 1)
    + Chosen(NextBusVocal, nextBusVocal == 1)
    + Chosen(ProblemVocal, problemVocal == 1)
    + Chosen(ProblemVisual, problemVisual == Num(1))
  }

  /** A stop's labels: at most five, the descriptions of the features whose
      flag is set, in the fixed order wheelchair, next-bus visual, next-bus
      vocal, problem vocal, problem visual. */
  function StopLabels(wheelchair: int, nextBusVocal: int, nextBusVisual: int,
                      problemVocal: int, problemVisual: Cell): (r: seq<string>)
    ensures |r| <= 5
    ensures r == Descriptions(StopFeatures(wheelchair, nextBusVocal, nextBusVisual, problemVocal, problemVisual))
  {
    StopFeaturesInOrder(wheelchair, nextBusVocal, nextBusVisual, problemVocal, problemVisual);
    Labels(StopFlags(wheelchair, nextBusVocal, nextBusVisual, problemVocal, problemVisual))
  }

  /** The features two flag lists select are those the first selects,
      then those the second selects. */
  lemma {:induction false} SetFeaturesAppend(a: seq<(Feature, FlagValue)>, b: seq<(Feature, FlagValue)>)
    ensures SetFeatures(a + b) == SetFeatures(a) + SetFeatures(b)
  {
    if a != [] {
      SetFeaturesAppend(a[1..], b);
      assert (a + b)[1..] == a[1..] + b;
    } else {
      assert a + b == b;
    }
  }

  /** The stop flags select the stop features, in order. */
  lemma StopFeaturesInOrder(wheelchair: int, nextBusVocal: int, nextBusVisual: int,
                            problemVocal: int, problemVisual: Cell)
    ensures SetFeatures(StopFlags(wheelchair, nextBusVocal, nextBusVisual, problemVocal, problemVisual))
         == StopFeatures(wheelchair, nextBusVocal, nextBusVisual, problemVocal, problemVisual)
  {
    var x1, x2, x3 := (Wheelchair, Coerced(wheelchair)), (NextBusVisual, Coerced(nextBusVisual)), (NextBusVocal, Coerced(nextBusVocal));
    var x4, x5 := (ProblemVocal, Coerced(problemVocal)), (ProblemVisual, Uncoerced(problemVisual));
    assert StopFlags(wheelchair, nextBusVocal, nextBusVisual, problemVocal, problemVisual)
        == [x1] + [x2] + [x3] + [x4] + [x5];
    SetFeaturesAppend([x1] + [x2] + [x3] + [x4], [x5]);
    SetFeaturesAppend([x1] + [x2] + [x3], [x4]);
    SetFeaturesAppend([x1] + [x2], [x3]);
    SetFeaturesAppend([x1], [x2]);
    UncoercedEqualsOne(problemVisual);
    SingleFlag(x1);
    SingleFlag(x2);
    SingleFlag(x3);
    SingleFlag(x4);
    SingleFlag(x5);
  }

  /** A single flag selects its feature exactly when it equals 1. */
  lemma SingleFlag(x: (Feature, FlagValue))
    ensures SetFeatures([x]) == Chosen(x.0, EqualsOne(x.1))
  {
    assert [x][1..] == [];
  }

  /** A description is among a stop's labels exactly when it is the
      description of a stop feature whose flag is set, the problem-visual flag
      being set only by the number 1; no route-only description appears. */
  lemma StopLabelPresence(wheelchair: int, nextBusVocal: int, nextBusVisual: int,
                          problemVocal: int, problemVisual: Cell)
    ensures var r := StopLabels(wheelchair, nextBusVocal, nextBusVisual, problemVocal, problemVisual);
      forall f :: Description(f) in r <==>
        || (f == Wheelchair && wheelchair == 1)
        || (f == NextBusVisual && nextBusVisual == 1)
        || (f == NextBusVocal && nextBusVocal == 1)
        || (f == ProblemVocal && problemVocal == 1)
        || (f == ProblemVisual && problemVisual == Num(1))
  {
    var fs := StopFeatures(wheelchair, nextBusVocal, nextBusVisual, problemVocal, problemVisual);
    forall f
      ensures Description(f) in Descriptions(fs) <==>
        || (f == Wheelchair && wheelchair == 1)
        || (f == NextBusVisual && nextBusVisual == 1)
        || (f == NextBusVocal && nextBusVocal == 1)
        || (f == ProblemVocal && problemVocal == 1)
        || (f == ProblemVisual && problemVisual == Num(1))
    {
      InDescriptions(f, fs);
    }
  }
}
