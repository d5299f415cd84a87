/** The framing of JSON lists: items with a comma after each, the last comma blanked. */
module Json {

  /** What the loops write to the stream between the brackets. */
  function WithCommas(items: seq<string>): string {
    if items == [] then "" else WithCommas(items[..|items| - 1]) + items[|items| - 1] + ","
  }

  /** Items separated by commas. */
  function Join(items: seq<string>): string {
    if items == [] then "" else
      (if |items| == 1 then "" else Join(items[..|items| - 1]) + ",") + items[|items| - 1]
  }

  /** A well-formed list. */
  function ListText(items: seq<string>): string {
    if items == [] then "[]" else "[" + Join(items) + " ]"
  }

  /** `r[r.size() - 2] = ' '`, unless the text is too short. */
  function CloseList(r: string): string {
    if |r| > 2 then r[|r| - 2 := ' '] else r
  }

  lemma {:induction false} CommasJoin(items: seq<string>)
    requires items != []
    ensures WithCommas(items) == Join(items) + ","
  {
    var init, last := items[..|items| - 1], items[|items| - 1];
    if init != [] {
      CommasJoin(init);
      assert WithCommas(items) == (Join(init) + ",") + last + ",";
    }
  }

  /** Blanking the last comma turns the stream into a well-formed list. */
  lemma ClosedList(items: seq<string>)
    ensures CloseList("[" + WithCommas(items) + "]") == ListText(items)
  {
    if items == [] {
      assert "[" + WithCommas(items) + "]" == "[]";
    } else {
      CommasJoin(items);
      var r := "[" + (Join(items) + ",") + "]";
      assert r == "[" + Join(items) + ",]";
    }
  }

  lemma WithCommasNext(items: seq<string>, i: nat)
    requires i < |items|
    ensures WithCommas(items[..i + 1]) == WithCommas(items[..i]) + items[i] + ","
  {
    assert items[..i + 1][..i] == items[..i];
  }

  lemma {:induction false} WithCommasAppend(a: seq<string>, b: seq<string>)
    ensures WithCommas(a + b) == WithCommas(a) + WithCommas(b)
  {
    if b == [] {
      assert a + b == a;
    } else {
      var init := b[..|b| - 1];
      assert (a + b)[..|a + b| - 1] == a + init;
      WithCommasAppend(a, init);
    }
  }
}
