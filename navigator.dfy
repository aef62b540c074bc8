/**
 * Model of `algorithmics/navigator.py` and of the threat records it dispatches on
 * (the `algorithmics/enemy` dataclasses). `navigate` splits its threats by kind and, as the code stands,
 * returns the straight path `[source, target]`.
 */
module Navigator {
  import opened Coordinates

  /** The closed set of threat kinds: the three `enemy` dataclasses with their fields. */
  datatype Threat =
    | ObservationPost(center: Coordinate, radius: real)
    | AsteroidsZone(boundary: seq<Coordinate>)
    | Radar(center: Coordinate, radius: real)

  /** The class an `isinstance` test asks about. */
  datatype ThreatKind = ObservationPostKind | AsteroidsZoneKind | RadarKind

  /** The class of a threat, as `isinstance` sees it. */
  function KindOf(t: Threat): (k: ThreatKind)
    ensures k == ObservationPostKind <==> t.ObservationPost?
    ensures k == AsteroidsZoneKind <==> t.AsteroidsZone?
    ensures k == RadarKind <==> t.Radar?
  {
    match t
    case ObservationPost(_, _) => ObservationPostKind
    case AsteroidsZone(_) => AsteroidsZoneKind
    case Radar(_, _) => RadarKind
  }

  /** `[threat for threat in threats if isinstance(threat, K)]`. */
  function OfKind(threats: seq<Threat>, k: ThreatKind): (r: seq<Threat>)
    ensures |r| <= |threats|
    ensures forall i :: 0 <= i < |r| ==> KindOf(r[i]) == k
    ensures forall t :: t in r <==> t in threats && KindOf(t) == k
  {
    if threats == [] then []
    else if KindOf(threats[0]) == k then [threats[0]] + OfKind(threats[1..], k)
    else OfKind(threats[1..], k)
  }

  /** The three lists `navigate` builds from its threats. */
  datatype ThreatsByKind = ThreatsByKind(observationPosts: seq<Threat>, asteroidsZones: seq<Threat>, radars: seq<Threat>)

  function Partition(threats: seq<Threat>): (p: ThreatsByKind)
    ensures |p.observationPosts| + |p.asteroidsZones| + |p.radars| == |threats|
    ensures multiset(p.observationPosts) + multiset(p.asteroidsZones) + multiset(p.radars) == multiset(threats)
  {
    PartitionCounts(threats);
    ThreatsByKind(OfKind(threats, ObservationPostKind), OfKind(threats, AsteroidsZoneKind), OfKind(threats, RadarKind))
  }

  /**
   * `navigate(source, target, threats)`: the returned path starts at `source` and ends at
   * `target`; the per-kind lists are computed and not used.
   */
  function Navigate(source: Coordinate, target: Coordinate, threats: seq<Threat>): (path: seq<Coordinate>)
    ensures |path| == 2
    ensures path[0] == source && path[|path| - 1] == target
  {
    var byKind := Partition(threats);
    [source, target]
  }

  // ---------------------------------------------------------------------------------------------
  // The filters keep order: filtering distributes over concatenation, so each list is the
  // threats of its kind in their original order.

  lemma {:induction false} OfKindAppend(a: seq<Threat>, b: seq<Threat>, k: ThreatKind)
    ensures OfKind(a + b, k) == OfKind(a, k) + OfKind(b, k)
  {
    if a == [] {
      assert a + b == b;
    } else {
      assert (a + b)[1..] == a[1..] + b;
      OfKindAppend(a[1..], b, k);
    }
  }

  lemma OfKindSingleton(t: Threat, k: ThreatKind)
    ensures OfKind([t], k) == if KindOf(t) == k then [t] else []
  {
    assert [t][1..] == [];
  }

  /** Every threat of the kind is kept, as often as it occurs; no other threat is. */
  lemma {:induction false} OfKindMultiset(threats: seq<Threat>, k: ThreatKind, t: Threat)
    ensures multiset(OfKind(threats, k))[t] == if KindOf(t) == k then multiset(threats)[t] else 0
  {
    if threats != [] {
      assert threats == [threats[0]] + threats[1..];
      OfKindMultiset(threats[1..], k, t);
    }
  }

  /** A list already all of one kind passes its filter unchanged and every other filter empty. */
  lemma {:induction false} OfKindUniform(threats: seq<Threat>, kind: ThreatKind, k: ThreatKind)
    requires forall i :: 0 <= i < |threats| ==> KindOf(threats[i]) == kind
    ensures OfKind(threats, k) == if k == kind then threats else []
  {
    if threats != [] {
      assert KindOf(threats[0]) == kind;
      assert threats == [threats[0]] + threats[1..];
      OfKindUniform(threats[1..], kind, k);
    }
  }

  /** Each threat lands in exactly one of the three lists. */
  lemma {:induction false} PartitionCounts(threats: seq<Threat>)
    ensures |OfKind(threats, ObservationPostKind)| + |OfKind(threats, AsteroidsZoneKind)| + |OfKind(threats, RadarKind)| == |threats|
    ensures multiset(OfKind(threats, ObservationPostKind)) + multiset(OfKind(threats, AsteroidsZoneKind))
            + multiset(OfKind(threats, RadarKind)) == multiset(threats)
  {
    if threats != [] {
      assert threats == [threats[0]] + threats[1..];
      PartitionCounts(threats[1..]);
    }
  }

  /**
   * Concatenating lists of observation posts, asteroids zones and radars, as the app does
   * before calling `navigate`, and partitioning again gives the three lists back.
   */
  lemma PartitionOfConcatenation(posts: seq<Threat>, zones: seq<Threat>, radars: seq<Threat>)
    requires forall i :: 0 <= i < |posts| ==> posts[i].ObservationPost?
    requires forall i :: 0 <= i < |zones| ==> zones[i].AsteroidsZone?
    requires forall i :: 0 <= i < |radars| ==> radars[i].Radar?
    ensures Partition(posts + zones + radars) == ThreatsByKind(posts, zones, radars)
  {
    var all := posts + zones + radars;
    OfKindOfThree(posts, zones, radars, ObservationPostKind);
    assert posts + [] + [] == posts;
    OfKindOfThree(posts, zones, radars, AsteroidsZoneKind);
    assert [] + zones + [] == zones;
    OfKindOfThree(posts, zones, radars, RadarKind);
    assert [] + [] + radars == radars;
    assert OfKind(all, ObservationPostKind) == posts;
    assert OfKind(all, AsteroidsZoneKind) == zones;
    assert OfKind(all, RadarKind) == radars;
  }

  lemma OfKindOfThree(posts: seq<Threat>, zones: seq<Threat>, radars: seq<Threat>, k: ThreatKind)
    requires forall i :: 0 <= i < |posts| ==> posts[i].ObservationPost?
    requires forall i :: 0 <= i < |zones| ==> zones[i].AsteroidsZone?
    requires forall i :: 0 <= i < |radars| ==> radars[i].Radar?
    ensures OfKind(posts + zones + radars, k)
            == (if k == ObservationPostKind then posts else []) + (if k == AsteroidsZoneKind then zones else [])
               + (if k == RadarKind then radars else [])
  {
    OfKindAppend(posts + zones, radars, k);
    OfKindAppend(posts, zones, k);
    OfKindUniform(posts, ObservationPostKind, k);
    OfKindUniform(zones, AsteroidsZoneKind, k);
    OfKindUniform(radars, RadarKind, k);
  }

  /** The path does not depend on the threats; with none it is the straight segment. */
  lemma NavigateIgnoresThreats(source: Coordinate, target: Coordinate, threats: seq<Threat>)
    ensures Navigate(source, target, threats) == Navigate(source, target, [])
    ensures Navigate(source, target, []) == [source, target]
  {
  }

  /** Under the coordinates' own tolerant `==`, the path's endpoints equal `source` and `target`. */
  lemma NavigateEndpointsCompareEqual(source: Coordinate, target: Coordinate, threats: seq<Threat>)
    ensures var path := Navigate(source, target, threats);
            Equals(path[0], CoordinateOperand(source)) && Equals(path[|path| - 1], CoordinateOperand(target))
  {
  }
}
