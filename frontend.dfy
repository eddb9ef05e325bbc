/** determineUserItemStatus of the item-details page: the status the current user
    sees for an item, given the item's donations. A JavaScript null or undefined
    is `None`. */
module ItemDetails {
  import opened Outcomes

  /** The two fields of a Donation the rule reads: its status and its user's id. */
  datatype Interest = Interest(status: Option<string>, userId: int)

  predicate IsAccepted(d: Interest) {
    d.status == Some("ACCEPTED")
  }

  /** interestedUsers.some(user => user.status === "ACCEPTED"). */
  predicate AnyAccepted(ds: seq<Interest>) {
    exists i :: 0 <= i < |ds| && IsAccepted(ds[i])
  }

  /** The map that keeps "ACCEPTED" and turns every other status into "REJECTED". */
  function MarkOthersRejected(ds: seq<Interest>): (r: seq<Interest>)
    ensures |r| == |ds|
  {
    seq(|ds|, i requires 0 <= i < |ds| =>
      ds[i].(status := Some(if IsAccepted(ds[i]) then "ACCEPTED" else "REJECTED")))
  }

  /** find(user => user.user.id === currentUserId), as the index it stops at. */
  function FindByUser(ds: seq<Interest>, userId: int): (r: Option<nat>)
    ensures r.Some? ==> r.value < |ds| && ds[r.value].userId == userId
    ensures r.Some? ==> forall j :: 0 <= j < r.value ==> ds[j].userId != userId
    ensures r.None? ==> forall j :: 0 <= j < |ds| ==> ds[j].userId != userId
    decreases |ds|
  {
    if ds == [] then None
    else if ds[0].userId == userId then Some(0)
    else
      var rest := FindByUser(ds[1..], userId);
      if rest.Some? then Some(rest.value + 1) else None
  }

  /** A JavaScript string is truthy when it is present and non-empty. */
  predicate Truthy(s: Option<string>) {
    s.Some? && s.value != ""
  }

  /** The answer when the current user has no usable status of their own. */
  function DefaultStatus(ds: seq<Interest>): string {
    if AnyAccepted(ds) then "REJECTED" else "AVAILABLE"
  }

  /** determineUserItemStatus. */
  function DetermineUserItemStatus(interestedUsers: seq<Interest>, currentUserId: int): (r: string)
    ensures r != ""
    ensures AnyAccepted(interestedUsers) ==> r == "ACCEPTED" || r == "REJECTED"
    ensures || r == "REJECTED" || r == "AVAILABLE"
            || exists j :: 0 <= j < |interestedUsers| && interestedUsers[j].userId == currentUserId &&
                 interestedUsers[j].status == Some(r)
  {
    var marked := if AnyAccepted(interestedUsers) then MarkOthersRejected(interestedUsers) else interestedUsers;
    var found := FindByUser(marked, currentUserId);
    var currentUserStatus := if found.Some? then marked[found.value].status else None;
    if Truthy(currentUserStatus) then currentUserStatus.value else DefaultStatus(interestedUsers)
  }

  /** Relabelling the statuses does not move the current user's first donation. */
  lemma MarkingKeepsFind(ds: seq<Interest>, userId: int)
    ensures FindByUser(MarkOthersRejected(ds), userId) == FindByUser(ds, userId)
  {
    var m := MarkOthersRejected(ds);
    assert forall j :: 0 <= j < |ds| ==> m[j].userId == ds[j].userId;
  }

  /** Without a donation of the current user the answer is "REJECTED" once some
      donation is accepted and "AVAILABLE" otherwise. */
  lemma StatusWithoutOwnDonation(ds: seq<Interest>, userId: int)
    requires forall j :: 0 <= j < |ds| ==> ds[j].userId != userId
    ensures DetermineUserItemStatus(ds, userId) == if AnyAccepted(ds) then "REJECTED" else "AVAILABLE"
  {
    MarkingKeepsFind(ds, userId);
  }

  /** Once some donation is accepted, the current user's first donation decides:
      "ACCEPTED" if it is the accepted one, "REJECTED" otherwise, whatever its
      status was, null included. */
  lemma StatusOnceAccepted(ds: seq<Interest>, userId: int, k: nat)
    requires AnyAccepted(ds) && FindByUser(ds, userId) == Some(k)
    ensures DetermineUserItemStatus(ds, userId) == if IsAccepted(ds[k]) then "ACCEPTED" else "REJECTED"
    ensures DetermineUserItemStatus(ds, userId) in {"ACCEPTED", "REJECTED"}
  {
    MarkingKeepsFind(ds, userId);
  }

  /** While nothing is accepted, the current user's first donation shows its own
      status when that is non-empty, e.g. "PENDING", and "AVAILABLE" when it is
      null or empty. */
  lemma StatusBeforeAcceptance(ds: seq<Interest>, userId: int, k: nat)
    requires !AnyAccepted(ds) && FindByUser(ds, userId) == Some(k)
    ensures Truthy(ds[k].status) ==> DetermineUserItemStatus(ds, userId) == ds[k].status.value
    ensures !Truthy(ds[k].status) ==> DetermineUserItemStatus(ds, userId) == "AVAILABLE"
    ensures ds[k].status == Some("PENDING") ==> DetermineUserItemStatus(ds, userId) == "PENDING"
  {
  }

  /** A null status on the current user's donation falls back to the default. */
  lemma NullStatusFallsBack(ds: seq<Interest>, userId: int, k: nat)
    requires FindByUser(ds, userId) == Some(k) && ds[k].status.None?
    ensures DetermineUserItemStatus(ds, userId) == DefaultStatus(ds)
  {
    MarkingKeepsFind(ds, userId);
  }
}

/** The filteredPosts expression of the home timeline and of the user's own
    posts page, which compute the same filter-then-sort: the posts whose title
    contains the search text ignoring case and whose category and condition
    match the chosen filters, ordered by creation time. */
module Timeline {
  import opened Outcomes
  import opened Text
  import opened Seqs

  /** The fields of a Post the expression reads; `createdAt` is the time in
      milliseconds that `new Date(createdAt).getTime()` gives. */
  datatype Post = Post(id: int, title: Option<string>, category: Option<string>,
                       condition: Option<string>, createdAt: Option<int>)

  /** The sort key: a missing createdAt counts as 0. */
  function Time(p: Post): int {
    p.createdAt.GetOr(0)
  }

  /** A select value filters only when it is present and non-empty. */
  predicate IsSet(filter: Option<string>) {
    filter.Some? && filter.value != ""
  }

  /** post.title?.toLowerCase().includes(searchText.toLowerCase()). */
  predicate MatchesSearch(p: Post, searchText: string) {
    p.title.Some? && Includes(ToLowerAscii(p.title.value), ToLowerAscii(searchText))
  }

  /** filter ? value === filter : true. */
  predicate MatchesFilter(value: Option<string>, filter: Option<string>) {
    if IsSet(filter) then value == filter else true
  }

  predicate Matches(p: Post, searchText: string, filterCategory: Option<string>, filterCondition: Option<string>) {
    MatchesSearch(p, searchText) && MatchesFilter(p.category, filterCategory) && MatchesFilter(p.condition, filterCondition)
  }

  function MatchesAll(searchText: string, filterCategory: Option<string>, filterCondition: Option<string>): Post -> bool {
    (p: Post) => Matches(p, searchText, filterCategory, filterCondition)
  }

  /** `a` may stand before `b`: the comparator is dateB - dateA for "newest" and
      dateA - dateB otherwise. */
  predicate Before(a: Post, b: Post, newest: bool) {
    if newest then Time(a) >= Time(b) else Time(a) <= Time(b)
  }

  predicate Sorted(s: seq<Post>, newest: bool) {
    forall i, j :: 0 <= i < j < |s| ==> Before(s[i], s[j], newest)
  }

  /** Puts `x` ahead of the first element it may stand before, so that of two
      posts with the same time the earlier one stays first, as the stable
      Array.prototype.sort keeps them. */
  function Insert(x: Post, s: seq<Post>, newest: bool): (r: seq<Post>)
    ensures multiset(r) == multiset{x} + multiset(s)
    decreases |s|
  {
    if s == [] || Before(x, s[0], newest) then [x] + s
    else
      assert s == [s[0]] + s[1..];
      [s[0]] + Insert(x, s[1..], newest)
  }

  /** Array.prototype.sort with the createdAt comparator. */
  function SortByCreatedAt(s: seq<Post>, newest: bool): (r: seq<Post>)
    ensures multiset(r) == multiset(s)
    decreases |s|
  {
    if s == [] then []
    else
      assert s == [s[0]] + s[1..];
      Insert(s[0], SortByCreatedAt(s[1..], newest), newest)
  }

  lemma {:induction false} InsertKeepsSorted(x: Post, s: seq<Post>, newest: bool)
    requires Sorted(s, newest)
    ensures Sorted(Insert(x, s, newest), newest)
    decreases |s|
  {
    if s != [] && !Before(x, s[0], newest) {
      InsertKeepsSorted(x, s[1..], newest);
      var rest := Insert(x, s[1..], newest);
      forall y | y in rest
        ensures Before(s[0], y, newest)
      {
        assert y in multiset(rest);
      }
    }
  }

  lemma {:induction false} SortIsSorted(s: seq<Post>, newest: bool)
    ensures Sorted(SortByCreatedAt(s, newest), newest)
    decreases |s|
  {
    if s != [] {
      SortIsSorted(s[1..], newest);
      InsertKeepsSorted(s[0], SortByCreatedAt(s[1..], newest), newest);
    }
  }

  /** filteredPosts. */
  function FilteredPosts(posts: seq<Post>, searchText: string, filterCategory: Option<string>,
                         filterCondition: Option<string>, filterRecent: string): (r: seq<Post>)
    ensures |r| <= |posts|
    ensures forall p :: p in r ==> p in posts && Matches(p, searchText, filterCategory, filterCondition)
  {
    var kept := Filter(posts, MatchesAll(searchText, filterCategory, filterCondition));
    var sorted := SortByCreatedAt(kept, filterRecent == "newest");
    assert |sorted| == |multiset(sorted)| == |multiset(kept)| == |kept|;
    assert forall p :: p in sorted <==> p in multiset(sorted) <==> p in multiset(kept) <==> p in kept;
    sorted
  }

  /** The result holds exactly the posts that pass all three tests, each as many
      times as the input holds it. */
  lemma FilteredPostsExact(posts: seq<Post>, searchText: string, filterCategory: Option<string>,
                           filterCondition: Option<string>, filterRecent: string, p: Post)
    ensures multiset(FilteredPosts(posts, searchText, filterCategory, filterCondition, filterRecent))[p] ==
      if Matches(p, searchText, filterCategory, filterCondition) then multiset(posts)[p] else 0
    ensures p in FilteredPosts(posts, searchText, filterCategory, filterCondition, filterRecent) <==>
      p in posts && Matches(p, searchText, filterCategory, filterCondition)
  {
    FilterCounts(posts, MatchesAll(searchText, filterCategory, filterCondition), p);
  }

  /** "newest" orders by non-increasing time, anything else by non-decreasing time. */
  lemma FilteredPostsOrdered(posts: seq<Post>, searchText: string, filterCategory: Option<string>,
                             filterCondition: Option<string>, filterRecent: string)
    ensures var r := FilteredPosts(posts, searchText, filterCategory, filterCondition, filterRecent);
      forall i, j :: 0 <= i < j < |r| ==>
        if filterRecent == "newest" then Time(r[i]) >= Time(r[j]) else Time(r[i]) <= Time(r[j])
  {
    SortIsSorted(Filter(posts, MatchesAll(searchText, filterCategory, filterCondition)), filterRecent == "newest");
  }

  /** The search ignores the case of both texts, excludes untitled posts and,
      when empty, passes every titled post. */
  lemma SearchRule(p: Post, searchText: string)
    ensures p.title.None? ==> !MatchesSearch(p, searchText)
    ensures MatchesSearch(p, searchText) == MatchesSearch(p, ToLowerAscii(searchText))
    ensures p.title.Some? ==>
      MatchesSearch(p, searchText) == MatchesSearch(p.(title := Some(ToLowerAscii(p.title.value))), searchText)
    ensures p.title.Some? && searchText == "" ==> MatchesSearch(p, searchText)
  {
    ToLowerAsciiFolds(searchText, searchText);
    if p.title.Some? {
      ToLowerAsciiFolds(p.title.value, p.title.value);
      if searchText == "" {
        IncludesEmpty(ToLowerAscii(p.title.value));
      }
    }
  }

  /** A null or empty category or condition filter accepts every post on that
      dimension; a set one accepts only an equal value. */
  lemma UnsetFiltersAcceptAll(p: Post, searchText: string, filterCategory: Option<string>, filterCondition: Option<string>)
    ensures !IsSet(filterCategory) && !IsSet(filterCondition) ==>
      (Matches(p, searchText, filterCategory, filterCondition) <==> MatchesSearch(p, searchText))
    ensures IsSet(filterCategory) ==>
      (Matches(p, searchText, filterCategory, filterCondition) ==> p.category == filterCategory)
    ensures Matches(p, searchText, None, None) == Matches(p, searchText, Some(""), Some(""))
  {
  }
}

/** The filteredUsers expression of the chat layout: the users whose name
    contains the search term, ignoring case. */
module ChatLayout {
  import opened Text
  import opened Seqs

  datatype ChatUser = ChatUser(email: string, name: string)

  predicate NameMatches(u: ChatUser, searchTerm: string) {
    Includes(ToLowerAscii(u.name), ToLowerAscii(searchTerm))
  }

  function NameContains(searchTerm: string): ChatUser -> bool {
    (u: ChatUser) => NameMatches(u, searchTerm)
  }

  /** filteredUsers. */
  function FilteredUsers(users: seq<ChatUser>, searchTerm: string): (r: seq<ChatUser>)
    ensures |r| <= |users|
    ensures forall u :: u in r ==> u in users && NameMatches(u, searchTerm)
  {
    Filter(users, NameContains(searchTerm))
  }

  /** The result is the matching users, in their order, each occurrence kept. */
  lemma FilteredUsersExact(users: seq<ChatUser>, searchTerm: string, u: ChatUser)
    ensures IsSubsequence(FilteredUsers(users, searchTerm), users)
    ensures u in FilteredUsers(users, searchTerm) <==> u in users && NameMatches(u, searchTerm)
    ensures multiset(FilteredUsers(users, searchTerm))[u] ==
      if NameMatches(u, searchTerm) then multiset(users)[u] else 0
  {
    FilterIsSubsequence(users, NameContains(searchTerm));
    FilterCounts(users, NameContains(searchTerm), u);
  }

  /** An empty search term keeps every user. */
  lemma EmptyTermKeepsAll(users: seq<ChatUser>)
    ensures FilteredUsers(users, "") == users
  {
    forall u | u in users
      ensures NameContains("")(u)
    {
      IncludesEmpty(ToLowerAscii(u.name));
    }
    FilterAll(users, NameContains(""));
  }
}

/** The upload-list trimming of the create-post form and the beforeUpload checks
    of the create-post and profile forms. */
module Uploads {
  import opened Outcomes
  import opened Text

  datatype UploadStatus = Error | Done | Uploading | Removed

  /** An entry of the upload list. */
  datatype UploadFile = UploadFile(uid: string, name: string, status: Option<UploadStatus>, url: Option<string>)

  /** The file handed to beforeUpload: its MIME type and its size in bytes. */
  datatype RcFile = RcFile(name: string, mimeType: string, size: nat)

  const MaxFiles := 5

  /** size / 1024 / 1024 < 2 holds exactly below 2 MiB. */
  const MaxImageBytes := 2 * 1024 * 1024

  function Min(a: int, b: int): int {
    if a <= b then a else b
  }

  /** handleChange: fileList.slice(-5), each entry marked "done". */
  function TrimFileList(fileList: seq<UploadFile>): (r: seq<UploadFile>)
    ensures |r| == Min(MaxFiles, |fileList|)
  {
    var start := |fileList| - Min(MaxFiles, |fileList|);
    seq(|fileList| - start, i requires 0 <= i < |fileList| - start => fileList[start + i].(status := Some(Done)))
  }

  /** The kept entries are the last five, in order, with only the status changed;
      a list of at most five keeps all its entries, and trimming again changes nothing. */
  lemma TrimFileListKeepsLastFive(fileList: seq<UploadFile>)
    ensures var r := TrimFileList(fileList);
      && (forall i :: 0 <= i < |r| ==>
            var f := fileList[|fileList| - |r| + i];
            r[i].status == Some(Done) && r[i] == f.(status := Some(Done)))
      && (|fileList| <= MaxFiles ==> |r| == |fileList|)
      && TrimFileList(r) == r
  {
    var r := TrimFileList(fileList);
    assert |TrimFileList(r)| == |r|;
  }

  /** create-post beforeUpload: any image type, below 2 MiB. */
  predicate CreatePostBeforeUpload(file: RcFile): (ok: bool)
    ensures ok <==> |file.mimeType| >= 6 && file.mimeType[..6] == "image/" && file.size < 2097152
  {
    var isImage := StartsWith(file.mimeType, "image/");
    var isLessThan2MB := file.size < MaxImageBytes;
    isImage && isLessThan2MB
  }

  /** profile beforeUpload: the type is tested first, then the size. */
  predicate ProfileBeforeUpload(file: RcFile): (ok: bool)
    ensures ok <==> (file.mimeType == "image/jpeg" || file.mimeType == "image/png") && file.size < 2097152
  {
    var isJpgOrPng := file.mimeType == "image/jpeg" || file.mimeType == "image/png";
    if !isJpgOrPng then false
    else if !(file.size < MaxImageBytes) then false
    else true
  }

  /** The profile form accepts exactly JPEG and PNG below 2 MiB, and every file it
      accepts the create-post form accepts too. */
  lemma ProfileUploadIsStricter(file: RcFile)
    ensures ProfileBeforeUpload(file) <==>
      (file.mimeType == "image/jpeg" || file.mimeType == "image/png") && file.size < 2097152
    ensures ProfileBeforeUpload(file) ==> CreatePostBeforeUpload(file)
  {
    if ProfileBeforeUpload(file) {
      assert file.mimeType[..6] == "image/";
    }
  }

  /** A GIF passes the create-post check but not the profile one, whatever its
      size; a file of exactly 2 MiB passes neither. */
  lemma UploadChecksDiffer(name: string, size: nat)
    ensures size < MaxImageBytes ==> CreatePostBeforeUpload(RcFile(name, "image/gif", size))
    ensures !ProfileBeforeUpload(RcFile(name, "image/gif", size))
    ensures !CreatePostBeforeUpload(RcFile(name, "image/png", MaxImageBytes))
    ensures !ProfileBeforeUpload(RcFile(name, "image/png", MaxImageBytes))
  {
    assert "image/gif"[..6] == "image/";
  }
}
