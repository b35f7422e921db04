/** Finding a parking guest by phone number: among the guest requests
    filed under the same (normalised) phone, an approved one is preferred,
    and among the candidates the newest by `(created_at, id)` wins; of
    several with the same key, the one listed first. */
module GuestLookup {
  import opened JsonValues
  import opened Helpers

  // ---------------------------------------------------------------- ordering

  /** Python's `<` on strings: lexicographic by code point. */
  predicate StrLess(a: string, b: string) {
    if a == [] then b != []
    else if b == [] then false
    else if a[0] != b[0] then a[0] < b[0]
    else StrLess(a[1..], b[1..])
  }

  lemma {:induction false} StrLessIrreflexive(a: string)
    ensures !StrLess(a, a)
  {
    if a != [] {
      StrLessIrreflexive(a[1..]);
    }
  }

  lemma {:induction false} StrLessTransitive(a: string, b: string, c: string)
    requires StrLess(a, b) && StrLess(b, c)
    ensures StrLess(a, c)
  {
    if a != [] && b != [] && c != [] && a[0] == b[0] && b[0] == c[0] {
      StrLessTransitive(a[1..], b[1..], c[1..]);
    }
  }

  lemma {:induction false} StrLessTotal(a: string, b: string)
    ensures a == b || StrLess(a, b) || StrLess(b, a)
  {
    if a != [] && b != [] && a[0] == b[0] {
      StrLessTotal(a[1..], b[1..]);
      if a[1..] == b[1..] {
        assert a == [a[0]] + a[1..];
        assert b == [b[0]] + b[1..];
      }
    }
  }

  /** The sort key `(created_at or "", int(id or 0))`. */
  datatype GuestKey = GuestKey(createdAt: string, id: int)

  /** Python's `<` on the key tuples. */
  predicate KeyLess(a: GuestKey, b: GuestKey) {
    StrLess(a.createdAt, b.createdAt) || (a.createdAt == b.createdAt && a.id < b.id)
  }

  lemma KeyLessIrreflexive(a: GuestKey)
    ensures !KeyLess(a, a)
  {
    StrLessIrreflexive(a.createdAt);
  }

  lemma KeyLessTransitive(a: GuestKey, b: GuestKey, c: GuestKey)
    requires KeyLess(a, b) && KeyLess(b, c)
    ensures KeyLess(a, c)
  {
    if StrLess(a.createdAt, b.createdAt) && StrLess(b.createdAt, c.createdAt) {
      StrLessTransitive(a.createdAt, b.createdAt, c.createdAt);
    }
  }

  lemma KeyLessTotal(a: GuestKey, b: GuestKey)
    ensures a == b || KeyLess(a, b) || KeyLess(b, a)
  {
    StrLessTotal(a.createdAt, b.createdAt);
  }

  // ---------------------------------------------------------------- guest records

  /** `g.get("created_at") or ""` is a string: the value is one or is
      falsy. */
  predicate CreatedAtIsText(g: Json)
    requires g.JObj?
  {
    !Truthy(Get(g, "created_at")) || Get(g, "created_at").JStr?
  }

  /** The sort key `(created_at or "", int(id or 0))`, where an id that
      `int()` rejects counts as 0. A created_at that is not text is given
      the key "" here; such a key is only ever used for a lone candidate,
      which the sort never compares. */
  function KeyOf(g: Json): (k: GuestKey)
    requires g.JObj?
    ensures CreatedAtIsText(g) ==>
      k.createdAt == if Truthy(Get(g, "created_at")) then Get(g, "created_at").s else ""
    ensures !Truthy(Get(g, "id")) || IntOf(Get(g, "id")).None? ==> k.id == 0
    ensures Truthy(Get(g, "id")) && IntOf(Get(g, "id")).Some? ==> k.id == IntOf(Get(g, "id")).value
  {
    var c := Get(g, "created_at");
    var v := Get(g, "id");
    var id := if !Truthy(v) then 0 else match IntOf(v) case Some(n) => n case None => 0;
    GuestKey(if Truthy(c) && c.JStr? then c.s else "", id)
  }

  /** The guest was filed under the phone whose normal form is `phone`. */
  predicate Matches(g: Json, phone: string)
    requires g.JObj?
  {
    NormalizePhone(PhoneText(Get(g, "phone"))) == phone
  }

  /** The guest list as the lookup for the normalised phone `p` reads it
      without raising: every entry is a dict, and every guest filed under
      `p` has a status that is a string or falsy (its `strip` is called).
      The status of any other guest is never read. */
  predicate LookupReady(guests: seq<Json>, p: string) {
    forall i :: 0 <= i < |guests| ==>
      guests[i].JObj? && (Matches(guests[i], p) ==> TextField(guests[i], "status").Some?)
  }

  /** `(g.get("status") or "").strip().lower() == "approved"`. */
  predicate Approved(g: Json)
    requires g.JObj? && TextField(g, "status").Some?
  {
    Lower(TextField(g, "status").value) == "approved"
  }

  predicate AnyApprovedMatch(guests: seq<Json>, phone: string)
    requires LookupReady(guests, phone)
  {
    exists i :: 0 <= i < |guests| && Matches(guests[i], phone) && Approved(guests[i])
  }

  /** Guest `i` is a candidate: it matches, and it is approved whenever
      some matching guest is. */
  predicate InPool(guests: seq<Json>, phone: string, i: int)
    requires LookupReady(guests, phone) && 0 <= i < |guests|
  {
    Matches(guests[i], phone) && (Approved(guests[i]) || !AnyApprovedMatch(guests, phone))
  }

  /** The position of the first candidate with the largest key among the
      first `n` entries, where `pool[i]` says whether entry `i` is a
      candidate and `keys[i]` is its key: a later candidate takes over
      only with a strictly larger key. */
  function Best(keys: seq<GuestKey>, pool: seq<bool>, n: nat): Option<nat>
    requires |pool| == |keys| && n <= |keys|
  {
    if n == 0 then None
    else
      var b := Best(keys, pool, n - 1);
      if pool[n - 1] && (b.None? || (b.value < |keys| && KeyLess(keys[b.value], keys[n - 1])))
      then Some(n - 1)
      else b
  }

  /** `b` is the first maximum among the candidates of the first `n`
      entries: a candidate whose key no candidate exceeds, and every
      candidate before it has a smaller key; None when there is none. */
  predicate IsFirstMax(keys: seq<GuestKey>, pool: seq<bool>, n: nat, b: Option<nat>)
    requires |pool| == |keys| && n <= |keys|
  {
    && (b.None? <==> forall j :: 0 <= j < n ==> !pool[j])
    && (b.Some? ==> b.value < n && pool[b.value])
    && (b.Some? ==> forall j :: 0 <= j < n && pool[j] ==> !KeyLess(keys[b.value], keys[j]))
    && (b.Some? ==> forall j :: 0 <= j < b.value && pool[j] ==> KeyLess(keys[j], keys[b.value]))
  }

  /** A later candidate with a strictly larger key becomes the first maximum. */
  lemma TakeOver(keys: seq<GuestKey>, pool: seq<bool>, n: nat, b: nat)
    requires |pool| == |keys| && 0 < n <= |keys|
    requires IsFirstMax(keys, pool, n - 1, Some(b)) && pool[n - 1]
    requires KeyLess(keys[b], keys[n - 1])
    ensures IsFirstMax(keys, pool, n, Some(n - 1))
  {
    var last := n - 1;
    var kb, kl := keys[b], keys[last];
    forall j | 0 <= j < n && pool[j]
      ensures !KeyLess(kl, keys[j])
    {
      if j < last {
        if KeyLess(kl, keys[j]) {
          KeyLessTransitive(kb, kl, keys[j]);
        }
      } else {
        KeyLessIrreflexive(kl);
      }
    }
    forall j | 0 <= j < last && pool[j]
      ensures KeyLess(keys[j], kl)
    {
      KeyLessTotal(keys[j], kb);
      if KeyLess(keys[j], kb) {
        KeyLessTransitive(keys[j], kb, kl);
      }
    }
  }

  /** The first candidate seen is the first maximum so far. */
  lemma FirstCandidate(keys: seq<GuestKey>, pool: seq<bool>, n: nat)
    requires |pool| == |keys| && 0 < n <= |keys|
    requires IsFirstMax(keys, pool, n - 1, None) && pool[n - 1]
    ensures IsFirstMax(keys, pool, n, Some(n - 1))
  {
    KeyLessIrreflexive(keys[n - 1]);
  }

  /** A non-candidate, or a candidate whose key is not larger, changes
      nothing. */
  lemma KeepBest(keys: seq<GuestKey>, pool: seq<bool>, n: nat, b: Option<nat>)
    requires |pool| == |keys| && 0 < n <= |keys|
    requires IsFirstMax(keys, pool, n - 1, b)
    requires !pool[n - 1] || (b.Some? && !KeyLess(keys[b.value], keys[n - 1]))
    ensures IsFirstMax(keys, pool, n, b)
  {
  }

  lemma {:induction false} BestIsFirstMaximum(keys: seq<GuestKey>, pool: seq<bool>, n: nat)
    requires |pool| == |keys| && n <= |keys|
    ensures IsFirstMax(keys, pool, n, Best(keys, pool, n))
  {
    if n > 0 {
      BestIsFirstMaximum(keys, pool, n - 1);
      var b := Best(keys, pool, n - 1);
      if !pool[n - 1] {
        KeepBest(keys, pool, n, b);
      } else if b.None? {
        FirstCandidate(keys, pool, n);
      } else if KeyLess(keys[b.value], keys[n - 1]) {
        TakeOver(keys, pool, n, b.value);
      } else {
        KeepBest(keys, pool, n, b);
      }
    }
  }

  /** Some guest is a candidate exactly when some guest matches. */
  lemma PoolNonEmpty(guests: seq<Json>, phone: string)
    requires LookupReady(guests, phone)
    ensures (exists j :: 0 <= j < |guests| && InPool(guests, phone, j))
        <==> (exists j :: 0 <= j < |guests| && Matches(guests[j], phone))
  {
    if j :| 0 <= j < |guests| && Matches(guests[j], phone) {
      if AnyApprovedMatch(guests, phone) {
        var k :| 0 <= k < |guests| && Matches(guests[k], phone) && Approved(guests[k]);
        assert InPool(guests, phone, k);
      } else {
        assert InPool(guests, phone, j);
      }
    }
  }

  /** Guest `j` is the only candidate. */
  predicate LoneCandidate(guests: seq<Json>, p: string, j: int)
    requires LookupReady(guests, p) && 0 <= j < |guests|
  {
    InPool(guests, p, j) && forall k :: 0 <= k < |guests| && k != j ==> !InPool(guests, p, k)
  }

  /** The sort of the candidates compares their keys without raising:
      there is at most one candidate, or every candidate's `created_at`
      is text. */
  predicate PoolComparable(guests: seq<Json>, p: string)
    requires LookupReady(guests, p)
  {
    || (forall i, j :: 0 <= i < j < |guests| && InPool(guests, p, i) ==> !InPool(guests, p, j))
    || (forall i :: 0 <= i < |guests| && InPool(guests, p, i) ==> CreatedAtIsText(guests[i]))
  }

  /** The sort keys of the guests, in list order. */
  function Keys(guests: seq<Json>): (r: seq<GuestKey>)
    requires AllDicts(guests)
    ensures |r| == |guests| && forall i :: 0 <= i < |guests| ==> r[i] == KeyOf(guests[i])
  {
    seq(|guests|, i requires 0 <= i < |guests| => KeyOf(guests[i]))
  }

  /** Which guests are candidates for the phone whose normal form is `p`. */
  function Candidates(guests: seq<Json>, p: string): (r: seq<bool>)
    requires LookupReady(guests, p)
    ensures |r| == |guests| && forall i :: 0 <= i < |guests| ==> r[i] == InPool(guests, p, i)
  {
    seq(|guests|, i requires 0 <= i < |guests| => InPool(guests, p, i))
  }

  /** `find_guest_by_phone(phone)` over the guest list: the position of the
      first candidate with the largest key, where the candidates are the
      guests filed under the phone that are approved, or all of those when
      none is (the sort is stable, also in reverse, so ties go to the
      first listed). */
  function FindGuestByPhone(guests: seq<Json>, phone: string): (r: Option<nat>)
    requires LookupReady(guests, NormalizePhone(phone)) && PoolComparable(guests, NormalizePhone(phone))
    ensures IsFirstMax(Keys(guests), Candidates(guests, NormalizePhone(phone)), |guests|, r)
  {
    var keys, pool := Keys(guests), Candidates(guests, NormalizePhone(phone));
    BestIsFirstMaximum(keys, pool, |guests|);
    Best(keys, pool, |guests|)
  }

  /** No guest is found exactly when no guest is filed under the phone;
      the guest found is filed under it, and is approved when an approved
      guest is filed under it; a lone candidate is the one found. */
  lemma FoundGuest(guests: seq<Json>, phone: string)
    requires LookupReady(guests, NormalizePhone(phone)) && PoolComparable(guests, NormalizePhone(phone))
    ensures var r := FindGuestByPhone(guests, phone);
      var p := NormalizePhone(phone);
      && (r.None? <==> forall j :: 0 <= j < |guests| ==> !Matches(guests[j], p))
      && (r.Some? ==> r.value < |guests| && Matches(guests[r.value], p)
                      && (AnyApprovedMatch(guests, p) ==> Approved(guests[r.value])))
      && (forall j :: 0 <= j < |guests| && LoneCandidate(guests, p, j) ==> r == Some(j))
  {
    var p := NormalizePhone(phone);
    var r := FindGuestByPhone(guests, phone);
    var pool := Candidates(guests, p);
    PoolNonEmpty(guests, p);
    if r.None? {
      assert forall j :: 0 <= j < |guests| ==> !pool[j];
    } else {
      assert pool[r.value];
    }
  }
}
