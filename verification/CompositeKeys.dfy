/** Keys that join two strings with a colon, as the histories of rooms, attachments and chats make them. */
module CompositeKeys {

  function Joined(first: string, second: string): string {
    first + ":" + second
  }

  /** One string goes on after the other and a colon. */
  predicate Overlap(a: string, b: string) {
    a + ":" <= b || b + ":" <= a
  }

  lemma ShorterFirst(first: string, second: string, first': string, second': string)
    requires |first| < |first'| && Joined(first, second) == Joined(first', second')
    ensures first + ":" <= first'
  {
    var key := Joined(first, second);
    assert key[..|first| + 1] == first + ":" && key[..|first'|] == first';
    assert first'[..|first| + 1] == key[..|first| + 1];
  }

  /** Joined strings tell their parts apart, unless one first part goes on after the other and a colon. */
  lemma JoinedInjective(first: string, second: string, first': string, second': string)
    requires !Overlap(first, first')
    requires Joined(first, second) == Joined(first', second')
    ensures first == first' && second == second'
  {
    if |first| < |first'| {
      ShorterFirst(first, second, first', second');
    } else if |first'| < |first| {
      ShorterFirst(first', second', first, second);
    } else {
      var key := Joined(first, second);
      assert first == key[..|first|] == first';
      assert second == key[|first| + 1..] == second';
    }
  }

  /** Different first parts can be joined to one string exactly when one goes on after the other and a colon. */
  lemma JoinedCollideIff(first: string, first': string)
    requires first != first'
    ensures (exists second, second' :: Joined(first, second) == Joined(first', second')) <==> Overlap(first, first')
  {
    if first + ":" <= first' {
      CollidingSeconds(first, first', "");
    }
    if first' + ":" <= first {
      CollidingSeconds(first', first, "");
    }
    if exists second, second' :: Joined(first, second) == Joined(first', second') {
      var second, second' :| Joined(first, second) == Joined(first', second');
      if !Overlap(first, first') {
        JoinedInjective(first, second, first', second');
      }
    }
  }

  lemma CollidingSeconds(first: string, first': string, second: string)
    requires first + ":" <= first'
    ensures Joined(first, Joined(first'[|first| + 1..], second)) == Joined(first', second)
  {
  }
}
