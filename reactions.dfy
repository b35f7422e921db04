/** Emoji reactions to news posts. For each post the reactions document
    maps an emoji to the list of user keys that reacted with it; a user
    has at most one reaction per post, and choosing the reaction one
    already has takes it back. */
module Reactions {
  import opened JsonValues

  /** The reactions offered: thumbs up, red heart (with its emoji
      presentation selector), fire, party popper, clapping hands, beaming
      face, crying face, thinking face. */
  const ReactionEmojis: seq<string> := [
    "\U{1F44D}", "\U{2764}\U{FE0F}", "\U{1F525}", "\U{1F389}",
    "\U{1F44F}", "\U{1F601}", "\U{1F622}", "\U{1F914}"]

  /** The reactions to one post: emoji to list of user keys. */
  type PostMap = map<string, Json>

  /** `reactions.get(pid)` when it is a dict, else a fresh empty one. */
  function PostMapOf(reactions: map<string, Json>, pid: string): PostMap {
    if pid in reactions && reactions[pid].JObj? then reactions[pid].fields else map[]
  }

  function ValueAt(m: PostMap, emoji: string): Json {
    if emoji in m then m[emoji] else JNull
  }

  predicate IsPrefix(a: string, s: string) {
    |a| <= |s| && s[..|a|] == a
  }

  /** Python's `a in s` on strings. */
  predicate IsSubstring(a: string, s: string) {
    IsPrefix(a, s) || (s != [] && IsSubstring(a, s[1..]))
  }

  /** `me in (v or [])` does not raise: the value is falsy, a list, a
      string or a dict. */
  predicate Readable(m: PostMap, emoji: string) {
    var v := ValueAt(m, emoji);
    !Truthy(v) || v.JArr? || v.JStr? || v.JObj?
  }

  /** `me in (post_map.get(emoji) or [])`: list membership, but substring
      for a string and key membership for a dict. */
  predicate Already(m: PostMap, emoji: string, me: string)
    requires Readable(m, emoji)
  {
    var v := ValueAt(m, emoji);
    Truthy(v) && match v
      case JArr(xs) => JStr(me) in xs
      case JStr(s) => IsSubstring(me, s)
      case JObj(f) => me in f
      case _ => false
  }

  /** What the clean-up loop leaves of one entry: a non-list is dropped,
      the user is removed from a list holding them, and a list left empty
      by that is dropped. */
  function CleanEntry(v: Json, me: string): (r: Option<Json>)
    ensures r.Some? ==> r.value.JArr? && JStr(me) !in r.value.items
    ensures r.Some? && v.JArr? ==> forall x :: x != JStr(me) ==> multiset(r.value.items)[x] == multiset(v.items)[x]
    ensures v.JArr? && (exists x :: x in v.items && x != JStr(me)) ==> r.Some?
  {
    if !v.JArr? then None
    else if JStr(me) !in v.items then Some(v)
    else
      var rest := Without(v.items, JStr(me));
      if rest == [] then
        assert forall x :: x in v.items && x != JStr(me) ==> x in multiset(rest);
        None
      else Some(JArr(rest))
  }

  /** The post's map after the clean-up loop has visited the keys in
      `visited`. */
  function CleanedUpTo(m: PostMap, me: string, visited: set<string>): PostMap {
    map e | e in m && (e !in visited || CleanEntry(m[e], me).Some?) ::
      if e in visited then CleanEntry(m[e], me).value else m[e]
  }

  /** The post's map once every key was visited. */
  function Cleaned(m: PostMap, me: string): (r: PostMap)
    ensures forall e :: e in r ==> e in m && r[e].JArr? && JStr(me) !in r[e].items
  {
    CleanedUpTo(m, me, m.Keys)
  }

  /** The post's reactions after `me` reacts with `emoji`: their reaction
      is cleared everywhere, and unless `emoji` was theirs already, they
      are appended to its list. No key but the chosen emoji is added, and
      only list entries are kept. */
  function Reacted(m: PostMap, emoji: string, me: string): (r: PostMap)
    requires Readable(m, emoji)
    ensures r.Keys <= m.Keys + {emoji}
    ensures forall e :: e in r && e != emoji ==> m[e].JArr?
  {
    var c := Cleaned(m, me);
    if Already(m, emoji, me) then c
    else c[emoji := JArr((if emoji in c then c[emoji].items else []) + [JStr(me)])]
  }

  lemma CleanedStep(m: PostMap, me: string, visited: set<string>, e: string)
    requires e in m && e !in visited
    ensures var before := CleanedUpTo(m, me, visited);
      var c := CleanEntry(m[e], me);
      CleanedUpTo(m, me, visited + {e}) == if c.Some? then before[e := c.value] else before - {e}
  {
    var before := CleanedUpTo(m, me, visited);
    var after := CleanedUpTo(m, me, visited + {e});
    var c := CleanEntry(m[e], me);
    if c.Some? {
      assert after.Keys == before.Keys + {e};
      forall k | k in after ensures after[k] == before[e := c.value][k] {
      }
    } else {
      assert after.Keys == before.Keys - {e};
      forall k | k in after ensures after[k] == (before - {e})[k] {
      }
    }
  }

  /** Before the loop has visited anything the post's map is untouched. */
  lemma CleanedNothing(m: PostMap, me: string)
    ensures CleanedUpTo(m, me, {}) == m
  {
  }

  /** One visit of the clean-up loop, branch by branch as the handler
      takes them. */
  lemma CleanVisit(m: PostMap, me: string, visited: set<string>, e: string)
    requires e in m && e !in visited
    ensures var before := CleanedUpTo(m, me, visited);
      var after := CleanedUpTo(m, me, visited + {e});
      && e in before && before[e] == m[e]
      && (!m[e].JArr? ==> after == before - {e})
      && (m[e].JArr? && JStr(me) !in m[e].items ==> after == before)
      && (m[e].JArr? && JStr(me) in m[e].items ==>
            var rest := Without(m[e].items, JStr(me));
            after == if rest != [] then before[e := JArr(rest)] else before - {e})
  {
    var before := CleanedUpTo(m, me, visited);
    CleanedStep(m, me, visited, e);
    if m[e].JArr? && JStr(me) !in m[e].items {
      assert before[e := m[e]] == before;
    }
  }

  /** The clean-up loop of the `react` handler: every key of the post's
      map is visited once (the order is not modelled); a non-list is
      dropped, and the user is taken out of a list holding them, the list
      being dropped when that empties it. */
  method CleanPost(m: PostMap, me: string) returns (postMap: PostMap)
    ensures postMap == Cleaned(m, me)
  {
    postMap := m;
    var visited: set<string> := {};
    CleanedNothing(m, me);
    var todo := m.Keys;
    while todo != {}
      invariant todo == m.Keys - visited && visited <= m.Keys
      invariant postMap == CleanedUpTo(m, me, visited)
      decreases todo
    {
      var e :| e in todo;
      CleanVisit(m, me, visited, e);
      var lst := postMap[e];
      if !lst.JArr? {
        postMap := postMap - {e};
      } else if JStr(me) in lst.items {
        var rest := Without(lst.items, JStr(me));
        if rest != [] {
          postMap := postMap[e := JArr(rest)];
        } else {
          postMap := postMap - {e};
        }
      }
      visited := visited + {e};
      todo := todo - {e};
    }
    assert visited == m.Keys;
  }

  /** The `react` handler on the reactions document: a reaction that is
      not offered changes nothing and saves nothing; otherwise the post's
      entry is replaced by its map after the toggle. */
  method React(reactions: map<string, Json>, pid: string, rawEmoji: string, me: string)
    returns (reactions': map<string, Json>, save: bool)
    requires Strip(rawEmoji) in ReactionEmojis ==> Readable(PostMapOf(reactions, pid), Strip(rawEmoji))
    ensures Strip(rawEmoji) !in ReactionEmojis ==> reactions' == reactions && !save
    ensures Strip(rawEmoji) in ReactionEmojis ==>
      save && reactions' == reactions[pid := JObj(Reacted(PostMapOf(reactions, pid), Strip(rawEmoji), me))]
  {
    var emoji := Strip(rawEmoji);
    if emoji !in ReactionEmojis {
      return reactions, false;
    }
    var m := PostMapOf(reactions, pid);
    var already := Already(m, emoji, me);
    var postMap := CleanPost(m, me);
    if !already {
      var mine := if emoji in postMap then postMap[emoji].items else [];
      postMap := postMap[emoji := JArr(mine + [JStr(me)])];
    }
    reactions', save := reactions[pid := JObj(postMap)], true;
  }

  // ---------------------------------------------------------------- properties

  /** Every entry is a list; the user appears in no list but the one of
      the emoji they reacted with, and there exactly when that emoji was
      not theirs already (reacting again takes the reaction back). */
  lemma ReactedShape(m: PostMap, emoji: string, me: string)
    requires Readable(m, emoji)
    ensures var r := Reacted(m, emoji, me);
      && (forall e :: e in r ==> r[e].JArr?)
      && (forall e :: e in r && JStr(me) in r[e].items ==> e == emoji)
      && (!Already(m, emoji, me) <==> emoji in r && JStr(me) in r[emoji].items)
  {
  }

  /** No other user's reaction is lost or added: for everyone else, each
      list of the result holds them as often as the post's list did. */
  lemma OthersUntouched(m: PostMap, emoji: string, me: string, e: string, x: Json)
    requires Readable(m, emoji) && x != JStr(me)
    ensures var r := Reacted(m, emoji, me);
      var before := if e in m && m[e].JArr? then multiset(m[e].items)[x] else 0;
      var after := if e in r then multiset(r[e].items)[x] else 0;
      after == before
  {
    var c := Cleaned(m, me);
    if e in m && m[e].JArr? && multiset(m[e].items)[x] > 0 {
      assert x in m[e].items;
      assert e in c;
    }
  }

  /** A post whose lists are all non-empty keeps that: the only list that
      can be created is the user's own, and a list that loses its last
      entry is dropped. */
  lemma NoEmptyListsKept(m: PostMap, emoji: string, me: string)
    requires Readable(m, emoji)
    requires forall e :: e in m ==> m[e] != JArr([])
    ensures var r := Reacted(m, emoji, me);
      forall e :: e in r ==> r[e].JArr? && r[e].items != []
  {
    var c := Cleaned(m, me);
    forall e | e in c ensures c[e].items != [] {
      assert c[e] == CleanEntry(m[e], me).value;
    }
  }

  /** On a list, "already" is list membership. */
  lemma AlreadyInList(m: PostMap, emoji: string, me: string)
    requires emoji in m ==> m[emoji].JArr?
    ensures Readable(m, emoji)
    ensures Already(m, emoji, me) <==> emoji in m && JStr(me) in m[emoji].items
  {
  }

  /** Reacting twice with the same emoji leaves the user's reaction there
      exactly when it was there before. */
  lemma {:induction false} ReactTwice(m: PostMap, emoji: string, me: string)
    requires Readable(m, emoji)
    ensures var once := Reacted(m, emoji, me);
      Readable(once, emoji) && (Already(Reacted(once, emoji, me), emoji, me) <==> Already(m, emoji, me))
  {
    var once := Reacted(m, emoji, me);
    ReactedShape(m, emoji, me);
    AlreadyInList(once, emoji, me);
    ReactedShape(once, emoji, me);
    var twice := Reacted(once, emoji, me);
    AlreadyInList(twice, emoji, me);
  }
}
