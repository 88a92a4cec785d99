/** Quality of service: the strict compatibility check with its 64-bit nanosecond arithmetic, and the
    conversions between RMW and ros-z profiles (crates/rmw-zenoh-rs/src/qos.rs). */
module Qos {
  import opened Common

  type U32 = n: int | 0 <= n < 0x1_0000_0000
  type U64 = n: int | 0 <= n < WORD

  // The policy values and kinds of the RMW bindings (crates/rmw-zenoh-rs/src/bindings.rs:1063-1067
  // and 2247-2312).
  const RELIABLE: U32 := 1
  const BEST_EFFORT: U32 := 2
  const TRANSIENT_LOCAL: U32 := 1
  const VOLATILE: U32 := 2
  const KEEP_LAST: U32 := 1
  const KEEP_ALL: U32 := 2
  const AUTOMATIC: U32 := 1
  const MANUAL_BY_TOPIC: U32 := 3

  const KIND_DURABILITY: U32 := 2
  const KIND_DEADLINE: U32 := 4
  const KIND_LIVELINESS: U32 := 8
  const KIND_RELIABILITY: U32 := 16

  const DEFAULT_HISTORY_DEPTH: U64 := 10

  const SECOND: int := 1_000_000_000

  datatype Duration = Duration(sec: U64, nsec: U64)

  const INFINITE := Duration(9223372036, 854775807)

  /** `rmw_qos_profile_t`; any number may stand in a policy field. */
  datatype RmwProfile = RmwProfile(
    history: U32, depth: U64, reliability: U32, durability: U32, deadline: Duration,
    lifespan: Duration, liveliness: U32, lease: Duration, avoidRosNames: bool)

  // ---- Nanoseconds

  /** `sec as i64 * 1_000_000_000 + nsec as i64`, wrapping where the release build wraps. */
  function Nanos(d: Duration): int {
    AsI64(AsI64(AsI64(d.sec) * SECOND) + AsI64(d.nsec))
  }

  /** What the formula is meant to compute. */
  function Total(d: Duration): nat {
    d.sec * SECOND + d.nsec
  }

  /** No step of the formula leaves the range of `i64`. */
  predicate StaysInRange(d: Duration) {
    && d.sec <= I64_MAX && d.nsec <= I64_MAX && d.sec * SECOND <= I64_MAX
    && d.sec * SECOND + d.nsec <= I64_MAX
  }

  lemma Congruent(a: int, b: int, k: int)
    requires a == b + k * WORD
    ensures AsI64(a) == AsI64(b)
  {
    assert a % WORD == b % WORD by {
      assert a == (b / WORD + k) * WORD + b % WORD;
    }
  }

  /** What wrapping produces: the one congruent number within the 64-bit signed range. */
  lemma AsI64Shift(n: int) returns (k: int)
    ensures AsI64(n) == n + k * WORD && WORD == 0x1_0000_0000_0000_0000
    ensures -0x8000_0000_0000_0000 <= AsI64(n) <= 0x7FFF_FFFF_FFFF_FFFF
  {
    k := if n % WORD <= I64_MAX then -(n / WORD) else -(n / WORD) - 1;
    assert n == n / WORD * WORD + n % WORD;
  }

  /** The wrapped formula is the total, wrapped once. */
  lemma NanosWrapsTotal(d: Duration)
    ensures Nanos(d) == AsI64(Total(d))
  {
    var i := AsI64Shift(d.sec);
    var j := AsI64Shift(AsI64(d.sec) * SECOND);
    var k := AsI64Shift(d.nsec);
    var sum := AsI64(AsI64(d.sec) * SECOND) + AsI64(d.nsec);
    assert sum == Total(d) + (i * SECOND + j + k) * WORD;
    Congruent(sum, Total(d), i * SECOND + j + k);
  }

  /** The formula is exact precisely up to `i64::MAX` nanoseconds, and then no step overflows. */
  lemma NanosExactIff(d: Duration)
    ensures Nanos(d) == Total(d) <==> Total(d) <= I64_MAX
    ensures Total(d) <= I64_MAX <==> StaysInRange(d)
  {
    NanosWrapsTotal(d);
    if Total(d) <= I64_MAX {
      assert d.sec * SECOND >= d.sec;
    }
  }

  /** The infinite duration is the largest that the arithmetic carries. */
  lemma InfiniteIsLargest(d: Duration)
    ensures Nanos(INFINITE) == I64_MAX
    ensures Nanos(d) <= Nanos(INFINITE)
  {
    NanosExactIff(INFINITE);
  }

  predicate Earlier(a: Duration, b: Duration) {
    a.sec < b.sec || (a.sec == b.sec && a.nsec <= b.nsec)
  }

  /** On normalised durations within range, comparing nanoseconds is comparing seconds first. */
  lemma NanosOrder(a: Duration, b: Duration)
    requires a.nsec < SECOND && b.nsec < SECOND && Total(a) <= I64_MAX && Total(b) <= I64_MAX
    ensures Nanos(a) <= Nanos(b) <==> Earlier(a, b)
  {
    NanosExactIff(a);
    NanosExactIff(b);
    if a.sec < b.sec {
      assert (a.sec + 1) * SECOND <= b.sec * SECOND;
    } else if b.sec < a.sec {
      assert (b.sec + 1) * SECOND <= a.sec * SECOND;
    }
  }

  // ---- The strict check

  /** A publisher's duration breaks a subscriber's bound; values that are not positive never do. */
  predicate Exceeds(pub: Duration, sub: Duration) {
    Nanos(sub) > 0 && Nanos(pub) > 0 && Nanos(pub) > Nanos(sub)
  }

  /** `check_qos_compatibility_with_policy`. */
  function Check(pub: RmwProfile, sub: RmwProfile): (bool, U32) {
    if pub.reliability == BEST_EFFORT && sub.reliability == RELIABLE then (false, KIND_RELIABILITY)
    else if pub.durability == VOLATILE && sub.durability == TRANSIENT_LOCAL then
      (false, KIND_DURABILITY)
    else if Exceeds(pub.deadline, sub.deadline) then (false, KIND_DEADLINE)
    else if pub.liveliness != sub.liveliness && sub.liveliness > pub.liveliness then
      (false, KIND_LIVELINESS)
    else if Exceeds(pub.lease, sub.lease) then (false, KIND_LIVELINESS)
    else (true, 0)
  }

  predicate Compatible(pub: RmwProfile, sub: RmwProfile) {
    Check(pub, sub).0
  }

  /** The requirements, in the order in which the check reports them. */
  datatype Requirement = Reliability | Durability | Deadline | Liveliness | Lease

  const ORDER := [Reliability, Durability, Deadline, Liveliness, Lease]

  function Kind(r: Requirement): U32 {
    match r
    case Reliability => KIND_RELIABILITY
    case Durability => KIND_DURABILITY
    case Deadline => KIND_DEADLINE
    case Liveliness | Lease => KIND_LIVELINESS
  }

  predicate Violates(pub: RmwProfile, sub: RmwProfile, r: Requirement) {
    match r
    case Reliability => pub.reliability == BEST_EFFORT && sub.reliability == RELIABLE
    case Durability => pub.durability == VOLATILE && sub.durability == TRANSIENT_LOCAL
    case Deadline => Exceeds(pub.deadline, sub.deadline)
    case Liveliness => sub.liveliness > pub.liveliness
    case Lease => Exceeds(pub.lease, sub.lease)
  }

  /** The check succeeds exactly when no requirement is violated, and otherwise names the first. */
  lemma CheckNamesTheFirst(pub: RmwProfile, sub: RmwProfile) returns (first: nat)
    ensures Compatible(pub, sub) <==> forall r :: !Violates(pub, sub, r)
    ensures Compatible(pub, sub) ==> Check(pub, sub).1 == 0 && first == |ORDER|
    ensures !Compatible(pub, sub) ==>
              && first < 5 == |ORDER| && Violates(pub, sub, ORDER[first])
              && Check(pub, sub).1 == Kind(ORDER[first]) == [16, 2, 4, 8, 8][first]
    ensures forall i :: 0 <= i < first <= |ORDER| ==> !Violates(pub, sub, ORDER[i])
  {
    if Compatible(pub, sub) {
      forall r
        ensures !Violates(pub, sub, r)
      {
        match r {
          case Reliability =>
          case Durability =>
          case Deadline =>
          case Liveliness =>
          case Lease =>
        }
      }
      return |ORDER|;
    }
    first := 0;
    while first < |ORDER| && !Violates(pub, sub, ORDER[first])
      invariant 0 <= first <= |ORDER|
      invariant forall i :: 0 <= i < first ==> !Violates(pub, sub, ORDER[i])
    {
      first := first + 1;
    }
    assert ORDER[0] == Reliability && ORDER[1] == Durability && ORDER[2] == Deadline;
    assert ORDER[3] == Liveliness && ORDER[4] == Lease;
  }

  /** For every two profiles, with the policies as numbers and the durations in nanoseconds: they match
      exactly when the subscriber does not insist on what the publisher declines, asks for no stricter
      liveliness, and has no positive bound that the publisher exceeds. A duration that is not positive,
      on either side, violates nothing. */
  lemma MatchesIff(pub: RmwProfile, sub: RmwProfile)
    ensures Compatible(pub, sub) <==>
              && !(pub.reliability == 2 && sub.reliability == 1)
              && !(pub.durability == 2 && sub.durability == 1)
              && !(0 < AsI64(sub.deadline.sec * 1_000_000_000 + sub.deadline.nsec)
                     < AsI64(pub.deadline.sec * 1_000_000_000 + pub.deadline.nsec))
              && sub.liveliness <= pub.liveliness
              && !(0 < AsI64(sub.lease.sec * 1_000_000_000 + sub.lease.nsec)
                     < AsI64(pub.lease.sec * 1_000_000_000 + pub.lease.nsec))
    ensures Nanos(pub.deadline) <= 0 || Nanos(sub.deadline) <= 0 ==> !Violates(pub, sub, Deadline)
    ensures Nanos(pub.lease) <= 0 || Nanos(sub.lease) <= 0 ==> !Violates(pub, sub, Lease)
  {
    NanosWrapsTotal(pub.deadline);
    NanosWrapsTotal(sub.deadline);
    NanosWrapsTotal(pub.lease);
    NanosWrapsTotal(sub.lease);
  }

  // ---- The check as an order

  /** Reliability and durability are decided and both durations count. */
  predicate Concrete(q: RmwProfile) {
    && q.reliability in {RELIABLE, BEST_EFFORT} && q.durability in {TRANSIENT_LOCAL, VOLATILE}
    && Nanos(q.deadline) > 0 && Nanos(q.lease) > 0
  }

  /** For example, a reliable, transient-local profile without time limits. */
  lemma InfiniteIsConcrete() returns (q: RmwProfile)
    ensures Concrete(q) && Compatible(q, q)
  {
    NanosExactIff(INFINITE);
    q := RmwProfile(KEEP_LAST, DEFAULT_HISTORY_DEPTH, RELIABLE, TRANSIENT_LOCAL, INFINITE, INFINITE,
                    AUTOMATIC, INFINITE, false);
  }

  /** On concrete profiles a publisher matches exactly the subscribers that ask for no more than it
      offers, policy by policy. */
  lemma CompatibleIsOrder(pub: RmwProfile, sub: RmwProfile)
    requires Concrete(pub) && Concrete(sub)
    ensures Compatible(pub, sub) <==>
              && (sub.reliability == RELIABLE ==> pub.reliability == RELIABLE)
              && (sub.durability == TRANSIENT_LOCAL ==> pub.durability == TRANSIENT_LOCAL)
              && Nanos(pub.deadline) <= Nanos(sub.deadline)
              && sub.liveliness <= pub.liveliness
              && Nanos(pub.lease) <= Nanos(sub.lease)
  {
  }

  lemma CheckIsReflexive(q: RmwProfile)
    ensures Compatible(q, q)
  {
  }

  /** Matching can be passed on through `q`: to whatever matches it, from whatever it matches. */
  ghost predicate Bridges(q: RmwProfile) {
    forall p, r :: Compatible(p, q) && Compatible(q, r) ==> Compatible(p, r)
  }

  lemma ConcreteBridges(p: RmwProfile, q: RmwProfile, r: RmwProfile)
    requires Concrete(q) && Compatible(p, q) && Compatible(q, r)
    ensures Compatible(p, r)
  {
  }

  /** A profile with an undecided policy or an ignored duration lets two profiles through that do not
      match each other. */
  lemma VagueBreaksTheChain(q: RmwProfile) returns (p: RmwProfile, r: RmwProfile)
    requires !Concrete(q)
    ensures Compatible(p, q) && Compatible(q, r) && !Compatible(p, r)
  {
    var long, short := Duration(0, 2), Duration(0, 1);
    NanosExactIff(long);
    NanosExactIff(short);
    if q.reliability !in {RELIABLE, BEST_EFFORT} {
      return q.(reliability := BEST_EFFORT), q.(reliability := RELIABLE);
    }
    if q.durability !in {TRANSIENT_LOCAL, VOLATILE} {
      return q.(durability := VOLATILE), q.(durability := TRANSIENT_LOCAL);
    }
    if Nanos(q.deadline) <= 0 {
      return q.(deadline := long), q.(deadline := short);
    }
    return q.(lease := long), q.(lease := short);
  }

  /** The check is transitive through `q` exactly when `q` is concrete. */
  lemma BridgesIffConcrete(q: RmwProfile)
    ensures Bridges(q) <==> Concrete(q)
  {
    if Concrete(q) {
      forall p, r | Compatible(p, q) && Compatible(q, r)
        ensures Compatible(p, r)
      {
        ConcreteBridges(p, q, r);
      }
    } else {
      var p, r := VagueBreaksTheChain(q);
    }
  }

  /** Strengthening a publisher and weakening a subscriber never breaks a match. */
  lemma MatchesSurvive(pub: RmwProfile, sub: RmwProfile, stronger: RmwProfile, weaker: RmwProfile)
    requires Compatible(pub, sub) && Concrete(pub) && Concrete(sub)
    requires Compatible(stronger, pub) && Compatible(sub, weaker)
    ensures Compatible(stronger, weaker)
  {
    ConcreteBridges(stronger, pub, sub);
    ConcreteBridges(stronger, sub, weaker);
  }

  // ---- Conversions

  datatype History = KeepLast(depth: U64) | KeepAll
  datatype ReliabilityPolicy = Reliable | BestEffort
  datatype DurabilityPolicy = TransientLocal | Volatile
  datatype LivelinessPolicy = Automatic | ManualByNode | ManualByTopic

  /** `ros_z::qos::QosProfile`; a depth of zero cannot be written there. */
  datatype Profile = Profile(
    history: History, reliability: ReliabilityPolicy, durability: DurabilityPolicy,
    deadline: Duration, lifespan: Duration, liveliness: LivelinessPolicy, lease: Duration)
  {
    predicate Valid() {
      history.KeepLast? ==> history.depth > 0
    }
  }

  /** `ros_z_qos_to_rmw_qos`. */
  function ToRmw(q: Profile): RmwProfile {
    RmwProfile(
      if q.history.KeepLast? then KEEP_LAST else KEEP_ALL,
      if q.history.KeepLast? then q.history.depth else 0,
      match q.reliability case Reliable => RELIABLE case BestEffort => BEST_EFFORT,
      match q.durability case TransientLocal => TRANSIENT_LOCAL case Volatile => VOLATILE,
      q.deadline, q.lifespan,
      match q.liveliness
        case Automatic => AUTOMATIC
        case ManualByNode => MANUAL_BY_TOPIC
        case ManualByTopic => MANUAL_BY_TOPIC,
      q.lease, false)
  }

  /** `QosHistory::from_depth`. */
  function FromDepth(depth: U64): History {
    KeepLast(if depth == 0 then DEFAULT_HISTORY_DEPTH else depth)
  }

  /** `rmw_qos_to_ros_z_qos`. */
  function FromRmw(q: RmwProfile): Profile {
    Profile(
      if q.history == KEEP_LAST then FromDepth(q.depth)
      else if q.history == KEEP_ALL then KeepAll
      else KeepLast(DEFAULT_HISTORY_DEPTH),
      if q.reliability == RELIABLE then Reliable
      else if q.reliability == BEST_EFFORT then BestEffort
      else Reliable,
      if q.durability == TRANSIENT_LOCAL then TransientLocal
      else if q.durability == VOLATILE then Volatile
      else Volatile,
      q.deadline, q.lifespan,
      if q.liveliness == AUTOMATIC then Automatic
      else if q.liveliness == MANUAL_BY_TOPIC then ManualByTopic
      else Automatic,
      q.lease)
  }

  function Normalized(q: RmwProfile): RmwProfile {
    if q.history == KEEP_LAST && q.depth == 0 then q.(depth := DEFAULT_HISTORY_DEPTH) else q
  }

  /** `normalize_rmw_qos`: only the depth may change, and only away from keep-last with depth 0; what
      the profile converts to stays the same. */
  method NormalizeRmwQos(qos: RmwProfile) returns (normalized: RmwProfile)
    ensures normalized.history == KEEP_LAST ==> normalized.depth > 0
    ensures normalized.(depth := qos.depth) == qos
    ensures qos.history != KEEP_LAST || qos.depth != 0 ==> normalized == qos
    ensures FromRmw(normalized) == FromRmw(qos)
  {
    normalized := qos;
    if normalized.history == KEEP_LAST && normalized.depth == 0 {
      normalized := normalized.(depth := DEFAULT_HISTORY_DEPTH);
    }
  }

  /** These four properties leave no choice. */
  lemma NormalFormIsUnique(q: RmwProfile, n: RmwProfile)
    requires n.history == KEEP_LAST ==> n.depth > 0
    requires n.(depth := q.depth) == q && FromRmw(n) == FromRmw(q)
    requires q.history != KEEP_LAST || q.depth != 0 ==> n == q
    ensures n == Normalized(q)
  {
  }

  /** A policy field converts to the default of ros-z (crates/ros-z/src/qos.rs:4-34, 61-83) exactly when
      it says so or is not understood: system default, unknown, best available, or out of range. Every
      other field is read by its number, and the durations are copied. */
  lemma DefaultsFillIn(r: RmwProfile)
    ensures var q := FromRmw(r);
            && (q.history == KeepLast(10) <==> r.history != 2 && (r.history == 1 ==> r.depth in {0, 10}))
            && (q.history == KeepAll <==> r.history == 2)
            && (r.history == 1 && r.depth > 0 ==> q.history == KeepLast(r.depth))
            && (q.reliability == Reliable <==> r.reliability != 2)
            && (q.durability == Volatile <==> r.durability != 1)
            && (q.liveliness == Automatic <==> r.liveliness != 3)
            && (q.liveliness == ManualByTopic <==> r.liveliness == 3)
            && q.deadline == r.deadline && q.lifespan == r.lifespan && q.lease == r.lease
  {
  }

  /** Policy by policy, what the converted profile says in numbers. */
  lemma NumbersAre(q: Profile)
    ensures var r := ToRmw(q);
            && r.history == (if q.history.KeepAll? then 2 else 1)
            && r.depth == (if q.history.KeepAll? then 0 else q.history.depth)
            && r.reliability == (if q.reliability.BestEffort? then 2 else 1)
            && r.durability == (if q.durability.Volatile? then 2 else 1)
            && r.liveliness == (if q.liveliness.Automatic? then 1 else 3)
            && r.deadline == q.deadline && r.lifespan == q.lifespan && r.lease == q.lease
            && !r.avoidRosNames
  {
  }

  /** Two ros-z profiles match after conversion exactly when, in their own terms, the subscriber asks for
      nothing that the publisher declines. */
  lemma ConvertedMatchIff(pub: Profile, sub: Profile)
    ensures Compatible(ToRmw(pub), ToRmw(sub)) <==>
              && (sub.reliability == Reliable ==> pub.reliability == Reliable)
              && (sub.durability == TransientLocal ==> pub.durability == TransientLocal)
              && (pub.liveliness == Automatic ==> sub.liveliness == Automatic)
              && !(0 < AsI64(Total(sub.deadline)) < AsI64(Total(pub.deadline)))
              && !(0 < AsI64(Total(sub.lease)) < AsI64(Total(pub.lease)))
  {
    NanosWrapsTotal(pub.deadline);
    NanosWrapsTotal(sub.deadline);
    NanosWrapsTotal(pub.lease);
    NanosWrapsTotal(sub.lease);
  }

  /** To RMW and back is the identity except that manual-by-node becomes manual-by-topic. */
  lemma RoundTripFromRosZ(q: Profile)
    requires q.Valid()
    ensures FromRmw(ToRmw(q)) ==
              if q.liveliness == ManualByNode then q.(liveliness := ManualByTopic) else q
    ensures FromRmw(ToRmw(q)) == q <==> q.liveliness != ManualByNode
  {
  }

  /** The RMW profiles that a ros-z profile can express. */
  predicate Canonical(r: RmwProfile) {
    && ((r.history == KEEP_LAST && r.depth > 0) || (r.history == KEEP_ALL && r.depth == 0))
    && r.reliability in {RELIABLE, BEST_EFFORT} && r.durability in {TRANSIENT_LOCAL, VOLATILE}
    && r.liveliness in {AUTOMATIC, MANUAL_BY_TOPIC} && !r.avoidRosNames
  }

  /** To ros-z and back keeps exactly the canonical profiles, always lands on one, and so is
      idempotent. */
  lemma RoundTripFromRmw(r: RmwProfile)
    ensures FromRmw(r).Valid() && Canonical(ToRmw(FromRmw(r)))
    ensures ToRmw(FromRmw(r)) == r <==> Canonical(r)
    ensures ToRmw(FromRmw(ToRmw(FromRmw(r)))) == ToRmw(FromRmw(r))
  {
  }

  /** Normalising first never changes what a profile converts to, and normalising twice is normalising
      once. */
  lemma NormalizingIsInvisible(r: RmwProfile)
    ensures FromRmw(Normalized(r)) == FromRmw(r)
    ensures Normalized(Normalized(r)) == Normalized(r)
  {
  }

  /** A converted profile takes part in the order exactly when its two durations count. */
  lemma ConvertedIsConcreteIff(q: Profile)
    ensures Bridges(ToRmw(q)) <==> Nanos(q.deadline) > 0 && Nanos(q.lease) > 0
  {
    BridgesIffConcrete(ToRmw(q));
  }
}
