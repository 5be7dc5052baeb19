/** `operator<` is a strict total order on values, with `operator==` as its equality. */
module JsonOrder {
  import opened Bytes
  import opened JsonValues

  /* ---- byte strings ---------------------------------------------------------- */

  lemma {:induction false} BytesTrichotomy(a: seq<byte>, b: seq<byte>)
    ensures !(LessBytes(a, b) && LessBytes(b, a))
    ensures a == b ==> !LessBytes(a, b)
    ensures a != b ==> LessBytes(a, b) || LessBytes(b, a)
  {
    if a != [] && b != [] {
      BytesTrichotomy(a[1..], b[1..]);
      assert a == [a[0]] + a[1..] && b == [b[0]] + b[1..];
    }
  }

  lemma {:induction false} BytesTransitive(a: seq<byte>, b: seq<byte>, c: seq<byte>)
    requires LessBytes(a, b) && LessBytes(b, c)
    ensures LessBytes(a, c)
  {
    if a != [] && a[0] == b[0] == c[0] {
      BytesTransitive(a[1..], b[1..], c[1..]);
    }
  }

  /* ---- exactly one of <, ==, > -------------------------------------------------- */

  predicate ExactlyOne(p: bool, q: bool, r: bool) {
    (p && !q && !r) || (!p && q && !r) || (!p && !q && r)
  }

  lemma {:induction false} Trichotomy(a: Json, b: Json)
    ensures ExactlyOne(Less(a, b), Equal(a, b), Less(b, a))
    decreases Size(a) + Size(b), 1
  {
    if Rank(a) == Rank(b) {
      match a
      case Str(x) => BytesTrichotomy(x, b.s);
      case Arr(xs) => ItemsTrichotomy(xs, b.items);
      case Obj(xs) => MembersTrichotomy(xs, b.members);
      case _ =>
    }
  }

  lemma {:induction false} ItemsTrichotomy(xs: seq<Json>, ys: seq<Json>)
    ensures ExactlyOne(LessItems(xs, ys), EqualItems(xs, ys), LessItems(ys, xs))
    decreases ItemsSize(xs) + ItemsSize(ys), 0
  {
    if xs != [] && ys != [] {
      Trichotomy(xs[0], ys[0]);
      ItemsTrichotomy(xs[1..], ys[1..]);
    }
  }

  lemma {:induction false} MembersTrichotomy(xs: seq<Member>, ys: seq<Member>)
    ensures ExactlyOne(LessMembers(xs, ys), EqualMembers(xs, ys), LessMembers(ys, xs))
    decreases MembersSize(xs) + MembersSize(ys), 0
  {
    if xs != [] && ys != [] {
      BytesTrichotomy(xs[0].key, ys[0].key);
      Trichotomy(xs[0].value, ys[0].value);
      MembersTrichotomy(xs[1..], ys[1..]);
    }
  }

  /* ---- equality ------------------------------------------------------------------ */

  lemma {:induction false} EqualReflexive(a: Json)
    ensures Equal(a, a)
  {
    Trichotomy(a, a);
  }

  lemma EqualSymmetric(a: Json, b: Json)
    ensures Equal(a, b) == Equal(b, a)
  {
    Trichotomy(a, b);
    Trichotomy(b, a);
  }

  /** Equal values stand in the same order to every third one. */
  lemma {:induction false} EqualCongruent(a: Json, b: Json, c: Json)
    requires Equal(a, b)
    ensures Less(a, c) == Less(b, c) && Less(c, a) == Less(c, b)
    decreases Size(a) + Size(b) + Size(c), 1
  {
    if Rank(a) == Rank(c) {
      match a
      case Arr(xs) => ItemsCongruent(xs, b.items, c.items);
      case Obj(xs) => MembersCongruent(xs, b.members, c.members);
      case _ =>
    }
  }

  lemma {:induction false} ItemsCongruent(xs: seq<Json>, ys: seq<Json>, zs: seq<Json>)
    requires EqualItems(xs, ys)
    ensures LessItems(xs, zs) == LessItems(ys, zs) && LessItems(zs, xs) == LessItems(zs, ys)
    decreases ItemsSize(xs) + ItemsSize(ys) + ItemsSize(zs), 0
  {
    if xs != [] && zs != [] {
      EqualCongruent(xs[0], ys[0], zs[0]);
      ItemsCongruent(xs[1..], ys[1..], zs[1..]);
    }
  }

  lemma {:induction false} MembersCongruent(xs: seq<Member>, ys: seq<Member>, zs: seq<Member>)
    requires EqualMembers(xs, ys)
    ensures LessMembers(xs, zs) == LessMembers(ys, zs) && LessMembers(zs, xs) == LessMembers(zs, ys)
    decreases MembersSize(xs) + MembersSize(ys) + MembersSize(zs), 0
  {
    if xs != [] && zs != [] {
      EqualCongruent(xs[0].value, ys[0].value, zs[0].value);
      MembersCongruent(xs[1..], ys[1..], zs[1..]);
    }
  }

  lemma EqualTransitive(a: Json, b: Json, c: Json)
    requires Equal(a, b) && Equal(b, c)
    ensures Equal(a, c)
  {
    EqualCongruent(a, b, c);
    Trichotomy(a, c);
    Trichotomy(b, c);
  }

  /* ---- transitivity ----------------------------------------------------------------- */

  lemma {:induction false} LessTransitive(a: Json, b: Json, c: Json)
    requires Less(a, b) && Less(b, c)
    ensures Less(a, c)
    decreases Size(a) + Size(b) + Size(c), 1
  {
    if Rank(a) == Rank(b) == Rank(c) {
      match a
      case Str(x) => BytesTransitive(x, b.s, c.s);
      case Arr(xs) => ItemsTransitive(xs, b.items, c.items);
      case Obj(xs) => MembersTransitive(xs, b.members, c.members);
      case _ =>
    }
  }

  lemma {:induction false} ItemsTransitive(xs: seq<Json>, ys: seq<Json>, zs: seq<Json>)
    requires LessItems(xs, ys) && LessItems(ys, zs)
    ensures LessItems(xs, zs)
    decreases ItemsSize(xs) + ItemsSize(ys) + ItemsSize(zs), 0
  {
    if xs != [] {
      var x, y, z := xs[0], ys[0], zs[0];
      Trichotomy(x, y);
      Trichotomy(y, z);
      Trichotomy(x, z);
      if Equal(x, y) {
        EqualCongruent(x, y, z);
      } else if Equal(y, z) {
        EqualSymmetric(y, z);
        EqualCongruent(z, y, x);
      } else {
        LessTransitive(x, y, z);
      }
      if Equal(x, y) && Equal(y, z) {
        ItemsTransitive(xs[1..], ys[1..], zs[1..]);
      }
    }
  }

  /** Three-way comparison of members follows that of keys, then that of values. */
  lemma MemberTrichotomy(x: Member, y: Member)
    ensures ExactlyOne(LessMember(x, y), x.key == y.key && Equal(x.value, y.value), LessMember(y, x))
  {
    BytesTrichotomy(x.key, y.key);
    Trichotomy(x.value, y.value);
  }

  lemma {:induction false} MembersTransitive(xs: seq<Member>, ys: seq<Member>, zs: seq<Member>)
    requires LessMembers(xs, ys) && LessMembers(ys, zs)
    ensures LessMembers(xs, zs)
    decreases MembersSize(xs) + MembersSize(ys) + MembersSize(zs), 0
  {
    if xs != [] {
      var x, y, z := xs[0], ys[0], zs[0];
      MemberTrichotomy(x, y);
      MemberTrichotomy(y, z);
      MemberTrichotomy(x, z);
      BytesTrichotomy(x.key, y.key);
      BytesTrichotomy(y.key, z.key);
      BytesTrichotomy(x.key, z.key);
      if LessBytes(x.key, y.key) && LessBytes(y.key, z.key) {
        BytesTransitive(x.key, y.key, z.key);
      } else if x.key == y.key == z.key {
        if Equal(x.value, y.value) {
          EqualCongruent(x.value, y.value, z.value);
        } else if Equal(y.value, z.value) {
          EqualSymmetric(y.value, z.value);
          EqualCongruent(z.value, y.value, x.value);
        } else {
          LessTransitive(x.value, y.value, z.value);
        }
        if Equal(x.value, y.value) && Equal(y.value, z.value) {
          MembersTransitive(xs[1..], ys[1..], zs[1..]);
        }
      }
    }
  }

  /** `operator<` is a strict total order agreeing with `operator==`. */
  lemma StrictTotalOrder(a: Json, b: Json, c: Json)
    ensures !Less(a, a)
    ensures Less(a, b) && Less(b, c) ==> Less(a, c)
    ensures ExactlyOne(Less(a, b), Equal(a, b), Less(b, a))
    ensures Equal(a, a) && Equal(a, b) == Equal(b, a) && (Equal(a, b) && Equal(b, c) ==> Equal(a, c))
  {
    Trichotomy(a, a);
    Trichotomy(a, b);
    EqualReflexive(a);
    EqualSymmetric(a, b);
    if Less(a, b) && Less(b, c) {
      LessTransitive(a, b, c);
    }
    if Equal(a, b) && Equal(b, c) {
      EqualTransitive(a, b, c);
    }
  }
}
