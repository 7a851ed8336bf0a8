/** The paged link-list answer of service/runtime_service.go: the sender cuts its list into pages that
    share a cookie, the receiver joins them per MAC. */
module LinkPaging {
  import opened Bits

  type Mac = nat
  type Link = nat

  const PAGE: nat := 50

  // ----- the sender -----

  function Join(pages: seq<seq<Link>>): seq<Link> {
    if pages == [] then [] else pages[0] + Join(pages[1..])
  }

  /** The paging loop of ProcessPeerLinksRequest. */
  method Pages(links: seq<Link>) returns (pages: seq<seq<Link>>)
    ensures Join(pages) == links
    ensures forall i :: 0 <= i < |pages| ==> 0 < |pages[i]| <= PAGE
    ensures |pages| == (|links| + PAGE - 1) / PAGE
    ensures forall i :: 0 <= i < |pages| - 1 ==> |pages[i]| == PAGE
  {
    var count := |links| / PAGE;
    if |links| % PAGE > 0 {
      count := count + 1;
    }
    pages := [];
    var i := 0;
    while i < count
      invariant 0 <= i <= count && |pages| == i
      invariant i < count ==> i * PAGE < |links|
      invariant Join(pages) == links[..if i == count then |links| else i * PAGE]
      invariant forall k :: 0 <= k < i ==> 0 < |pages[k]| <= PAGE
      invariant forall k :: 0 <= k < i && k < count - 1 ==> |pages[k]| == PAGE
    {
      var page := if i == count - 1 then links[i * PAGE..] else links[i * PAGE..(i + 1) * PAGE];
      JoinSnoc(pages, page);
      assert links[..i * PAGE] + page == links[..if i == count - 1 then |links| else (i + 1) * PAGE];
      pages := pages + [page];
      i := i + 1;
    }
    assert links[..|links|] == links;
  }

  lemma {:induction false} JoinSnoc(pages: seq<seq<Link>>, page: seq<Link>)
    ensures Join(pages + [page]) == Join(pages) + page
  {
    if pages == [] {
      assert pages + [page] == [page] && [page][1..] == [];
    } else {
      JoinSnoc(pages[1..], page);
      assert (pages + [page])[1..] == pages[1..] + [page];
    }
  }

  // ----- the receiver -----

  datatype Store = Store(infos: map<Mac, seq<Link>>, cookies: map<Mac, uint32>)

  /** A response page, or the clearing step of GetLinkInfos. */
  datatype Event = Page(mac: Mac, cookie: uint32, links: seq<Link>) | Clear(mac: Mac)

  /** ProcessPeerLinksResponse, and the clearing step: a page without links is an error and changes
      nothing, a cookie that is new for the MAC starts the list over, the known one continues it. */
  function Handle(s: Store, e: Event): Store {
    match e
    case Clear(mac) => s.(infos := s.infos - {mac})
    case Page(mac, cookie, links) =>
      if links == [] then s
      else if mac !in s.cookies || s.cookies[mac] != cookie then
        Store(s.infos[mac := links], s.cookies[mac := cookie])
      else if mac in s.infos then s.(infos := s.infos[mac := s.infos[mac] + links])
      else s.(infos := s.infos[mac := links])
  }

  class Receiver {
    var infos: map<Mac, seq<Link>>
    var cookies: map<Mac, uint32>

    ghost function Contents(): Store
      reads this
    {
      Store(infos, cookies)
    }

    constructor ()
      ensures Contents() == Store(map[], map[])
    {
      infos, cookies := map[], map[];
    }

    method ProcessPeerLinksResponse(mac: Mac, cookie: uint32, links: seq<Link>) returns (ok: bool)
      modifies this
      ensures ok <==> links != []
      ensures Contents() == Handle(old(Contents()), Page(mac, cookie, links))
    {
      if links == [] {
        return false;
      }
      ok := true;
      if mac !in cookies || cookies[mac] != cookie {
        cookies := cookies[mac := cookie];
        infos := infos[mac := links];
      } else {
        if mac in infos {
          infos := infos[mac := infos[mac] + links];
        } else {
          infos := infos[mac := links];
        }
      }
    }

    method ClearLinks(mac: Mac)
      modifies this
      ensures Contents() == Handle(old(Contents()), Clear(mac))
    {
      infos := infos - {mac};
    }
  }

  function Run(s: Store, events: seq<Event>): Store
    decreases |events|
  {
    if events == [] then s else Run(Handle(s, events[0]), events[1..])
  }

  /** The events that concern one MAC, in order. */
  function About(events: seq<Event>, mac: Mac): seq<Event> {
    if events == [] then []
    else if events[0].mac == mac then [events[0]] + About(events[1..], mac)
    else About(events[1..], mac)
  }

  /** What the store holds about one MAC. */
  ghost predicate SameAt(s: Store, t: Store, mac: Mac) {
    && (mac in s.infos <==> mac in t.infos) && (mac in s.infos ==> s.infos[mac] == t.infos[mac])
    && (mac in s.cookies <==> mac in t.cookies) && (mac in s.cookies ==> s.cookies[mac] == t.cookies[mac])
  }

  lemma HandleAt(s: Store, t: Store, e: Event, mac: Mac)
    requires SameAt(s, t, mac)
    ensures e.mac == mac ==> SameAt(Handle(s, e), Handle(t, e), mac)
    ensures e.mac != mac ==> SameAt(Handle(s, e), t, mac)
  {
  }

  /** Messages and requests about other MACs do not matter. */
  lemma {:induction false} OthersDoNotMatter(s: Store, t: Store, events: seq<Event>, mac: Mac)
    requires SameAt(s, t, mac)
    ensures SameAt(Run(s, events), Run(t, About(events, mac)), mac)
    decreases |events|
  {
    if events != [] {
      HandleAt(s, t, events[0], mac);
      if events[0].mac == mac {
        OthersDoNotMatter(Handle(s, events[0]), Handle(t, events[0]), events[1..], mac);
        var rest := About(events[1..], mac);
        assert ([events[0]] + rest)[1..] == rest;
      } else {
        OthersDoNotMatter(Handle(s, events[0]), t, events[1..], mac);
      }
    }
  }

  function PageEvents(mac: Mac, cookie: uint32, pages: seq<seq<Link>>): seq<Event> {
    if pages == [] then [] else [Page(mac, cookie, pages[0])] + PageEvents(mac, cookie, pages[1..])
  }

  /** What is held for a MAC. */
  function Held(s: Store, mac: Mac): seq<Link> {
    if mac in s.infos then s.infos[mac] else []
  }

  /** What the pages of an answer are added to: what is held under this very cookie - or whatever is
      held, when there are no links and so no page that counts. */
  function Leftover(s: Store, mac: Mac, cookie: uint32, pages: seq<seq<Link>>): seq<Link> {
    if Join(pages) == [] || (mac in s.cookies && s.cookies[mac] == cookie) then Held(s, mac) else []
  }

  lemma {:induction false} PagesJoin(s: Store, mac: Mac, cookie: uint32, pages: seq<seq<Link>>)
    ensures Held(Run(s, PageEvents(mac, cookie, pages)), mac) == Leftover(s, mac, cookie, pages) + Join(pages)
    decreases |pages|
  {
    if pages != [] {
      var e := Page(mac, cookie, pages[0]);
      var rest := PageEvents(mac, cookie, pages[1..]);
      assert ([e] + rest)[1..] == rest;
      var s1 := Handle(s, e);
      PagesJoin(s1, mac, cookie, pages[1..]);
      var left, joined := Leftover(s, mac, cookie, pages), Join(pages[1..]);
      if pages[0] == [] {
        assert s1 == s && [] + joined == joined;
      } else {
        assert Leftover(s1, mac, cookie, pages[1..]) == left + pages[0];
        assert left + pages[0] + joined == left + (pages[0] + joined);
      }
    }
  }

  /** Exactly when the pages of one answer of any length leave its list, whatever else is going on: when
      nothing was left over. Pages without links are refused and do not matter. */
  lemma RebuiltIff(s: Store, mac: Mac, cookie: uint32, pages: seq<seq<Link>>, events: seq<Event>)
    requires About(events, mac) == PageEvents(mac, cookie, pages)
    ensures Held(Run(s, events), mac) == Join(pages) <==> Leftover(s, mac, cookie, pages) == []
  {
    OthersDoNotMatter(s, s, events, mac);
    PagesJoin(s, mac, cookie, pages);
    var left := Leftover(s, mac, cookie, pages);
    assert left == [] ==> left + Join(pages) == Join(pages);
    assert left + Join(pages) == Join(pages) ==> |left| == 0;
  }

  /** After its clearing step a request always ends with the list, whatever cookie was remembered -
      even the same one - and however messages about other MACs interleave. */
  lemma ClearedRequestRebuilds(s: Store, mac: Mac, cookie: uint32, pages: seq<seq<Link>>, events: seq<Event>)
    requires About(events, mac) == [Clear(mac)] + PageEvents(mac, cookie, pages)
    ensures Held(Run(s, events), mac) == Join(pages)
  {
    OthersDoNotMatter(s, s, events, mac);
    var s1 := Handle(s, Clear(mac));
    var tail := PageEvents(mac, cookie, pages);
    assert ([Clear(mac)] + tail)[1..] == tail;
    PagesJoin(s1, mac, cookie, pages);
    assert Leftover(s1, mac, cookie, pages) + Join(pages) == Join(pages);
  }
}
