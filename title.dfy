/** The chart title built by figureBuilder: "Plot of Task: A",
    "Plot of Tasks: A and B", or "Plot of Tasks: A, B, and C". */
module ChartTitle {

  /** "A, B, " for the names in `names`: each followed by a comma and a space. */
  function CommaList(names: seq<string>): string
  {
    if names == [] then "" else CommaList(names[..|names| - 1]) + names[|names| - 1] + ", "
  }

  /** The listing used from three names on: the comma list of all but the
      last name, then "and " and the last name. */
  function Listing(names: seq<string>): string
    requires names != []
  {
    CommaList(names[..|names| - 1]) + "and " + names[|names| - 1]
  }

  /** Title of a chart of `tasks`. With no tasks the listing is empty. */
  function Title(tasks: seq<string>): string
  {
    if |tasks| == 1 then "Plot of Task: " + tasks[0]
    else if |tasks| == 2 then "Plot of Tasks: " + tasks[0] + " and " + tasks[1]
    else if tasks == [] then "Plot of Tasks: "
    else "Plot of Tasks: " + Listing(tasks)
  }

  /** The title-building part of figureBuilder: a loop that appends each
      task name, followed by ", " or, for the last one, preceded by "and ". */
  method BuildTitle(tasks: seq<string>) returns (titleName: string)
    ensures titleName == Title(tasks)
  {
    if |tasks| == 1 {
      titleName := "Plot of Task: " + tasks[0];
    } else if |tasks| == 2 {
      titleName := "Plot of Tasks: " + tasks[0] + " and " + tasks[1];
    } else {
      titleName := "Plot of Tasks: ";
      for i := 0 to |tasks|
        invariant i < |tasks| || tasks == [] ==> titleName == "Plot of Tasks: " + CommaList(tasks[..i])
        invariant 0 < i == |tasks| ==> titleName == "Plot of Tasks: " + Listing(tasks)
      {
        if i == |tasks| - 1 {
          assert tasks[..i] == tasks[..|tasks| - 1];
          titleName := titleName + "and " + tasks[i];
        } else {
          assert tasks[..i + 1][..i] == tasks[..i];
          titleName := titleName + tasks[i] + ", ";
        }
      }
    }
  }

  lemma SliceRight(a: string, b: string, k: nat, m: nat)
    requires |a| <= k && k + m <= |a| + |b|
    ensures (a + b)[k..k + m] == b[k - |a|..k - |a| + m]
  {
  }

  lemma SliceLeft(a: string, b: string, k: nat, m: nat)
    requires k + m <= |a|
    ensures (a + b)[k..k + m] == a[k..k + m]
  {
  }

  /** In the comma list, name i starts after the comma list of the names
      before it. */
  lemma {:induction false} CommaListMentions(names: seq<string>, i: nat)
    requires i < |names|
    ensures |CommaList(names[..i])| + |names[i]| + 2 <= |CommaList(names)|
    ensures CommaList(names)[|CommaList(names[..i])|..|CommaList(names[..i])| + |names[i]|] == names[i]
  {
    var n := |names|;
    assert names[..n] == names;
    var prefix := CommaList(names[..n - 1]);
    assert CommaList(names) == prefix + (names[n - 1] + ", ");
    if i == n - 1 {
      SliceRight(prefix, names[n - 1] + ", ", |prefix|, |names[i]|);
    } else {
      CommaListMentions(names[..n - 1], i);
      assert names[..n - 1][..i] == names[..i];
      SliceLeft(prefix, names[n - 1] + ", ", |CommaList(names[..i])|, |names[i]|);
    }
  }

  lemma ListingMentions(names: seq<string>, i: nat)
    requires 2 <= |names| && i < |names|
    ensures var off := |CommaList(names[..i])| + (if i == |names| - 1 then 4 else 0);
      off + |names[i]| <= |Listing(names)| && Listing(names)[off..off + |names[i]|] == names[i]
  {
    var n := |names|;
    var body := CommaList(names[..n - 1]);
    var tail := "and " + names[n - 1];
    assert Listing(names) == body + tail;
    if i < n - 1 {
      CommaListMentions(names[..n - 1], i);
      assert names[..n - 1][..i] == names[..i];
      SliceLeft(body, tail, |CommaList(names[..i])|, |names[i]|);
    } else {
      assert names[..i] == names[..n - 1];
      SliceRight(body, tail, |body| + 4, |names[i]|);
    }
  }

  /** A title of three or more tasks lists every task, in order: task i
      appears at the offset given by the names before it. */
  lemma TitleListsEveryTask(tasks: seq<string>, i: nat)
    requires 3 <= |tasks| && i < |tasks|
    ensures var off := |"Plot of Tasks: "| + |CommaList(tasks[..i])| + (if i == |tasks| - 1 then 4 else 0);
      off + |tasks[i]| <= |Title(tasks)| && Title(tasks)[off..off + |tasks[i]|] == tasks[i]
  {
    var head := "Plot of Tasks: ";
    ListingMentions(tasks, i);
    var off := |CommaList(tasks[..i])| + (if i == |tasks| - 1 then 4 else 0);
    SliceRight(head, Listing(tasks), |head| + off, |tasks[i]|);
  }
}
