/** What content.js makes of one comment node once it has passed the deduplication gate:
    its type, its structured fields (badge, level, nickname, content, inline images) and
    the record it sends for storage; and the room identity every record is tagged with. */
module CommentParser {
  import opened Wrappers
  import opened Text
  import opened Dom

  // ---------------------------------------------------------------------------
  // Room identity (`getRoomTitle`)
  // ---------------------------------------------------------------------------

  const UnknownRoom := "未知直播间"

  /** `pieces.filter(p => p)`. */
  function NonEmpty(pieces: seq<string>): seq<string> {
    if pieces == [] then []
    else (if pieces[0] != [] then [pieces[0]] else []) + NonEmpty(pieces[1..])
  }

  /** The room id: the last non-empty segment of the path, or "" when there is none. */
  function RoomId(pathname: string): string {
    var segments := NonEmpty(Split(pathname, {'/'}));
    if |segments| > 0 then segments[|segments| - 1] else ""
  }

  /** `${document.title || "未知直播间"} [${roomId}]`. */
  function RoomTitle(title: string, pathname: string): string {
    (if title == "" then UnknownRoom else title) + " [" + RoomId(pathname) + "]"
  }

  lemma {:induction false} NonEmptyLast(pieces: seq<string>)
    ensures NonEmpty(pieces) == [] <==> forall j :: 0 <= j < |pieces| ==> pieces[j] == []
    ensures NonEmpty(pieces) != [] ==>
              exists k :: 0 <= k < |pieces| && pieces[k] == NonEmpty(pieces)[|NonEmpty(pieces)| - 1]
                          && pieces[k] != [] && forall j :: k < j < |pieces| ==> pieces[j] == []
  {
    if pieces != [] {
      NonEmptyLast(pieces[1..]);
      var rest := NonEmpty(pieces[1..]);
      if rest != [] {
        var k :| 0 <= k < |pieces[1..]| && pieces[1..][k] == rest[|rest| - 1]
                 && pieces[1..][k] != [] && forall j :: k < j < |pieces[1..]| ==> pieces[1..][j] == [];
        assert pieces[k + 1] == pieces[1..][k];
        forall j | k + 1 < j < |pieces| ensures pieces[j] == [] {
          assert pieces[j] == pieces[1..][j - 1];
        }
      } else {
        forall j | 1 <= j < |pieces| ensures pieces[j] == [] {
          assert pieces[j] == pieces[1..][j - 1];
        }
      }
    }
  }

  lemma {:induction false} ConcatEmpty(pieces: seq<string>)
    ensures Concat(pieces) == [] <==> forall j :: 0 <= j < |pieces| ==> pieces[j] == []
  {
    if pieces != [] {
      ConcatEmpty(pieces[1..]);
      if Concat(pieces) == [] {
        forall j | 1 <= j < |pieces| ensures pieces[j] == [] {
          assert pieces[j] == pieces[1..][j - 1];
        }
      }
    }
  }

  lemma {:induction false} WithoutEmpty(s: string, seps: set<char>)
    ensures Without(s, seps) == [] <==> forall i :: 0 <= i < |s| ==> s[i] in seps
  {
    if s != [] {
      WithoutEmpty(s[1..], seps);
      if Without(s, seps) == [] {
        forall i | 1 <= i < |s| ensures s[i] in seps {
          assert s[i] == s[1..][i - 1];
        }
      }
    }
  }

  /** The room id is "" exactly when the path is made of slashes only. */
  lemma RoomIdEmpty(pathname: string)
    ensures RoomId(pathname) == [] <==> forall i :: 0 <= i < |pathname| ==> pathname[i] == '/'
  {
    var pieces := Split(pathname, {'/'});
    NonEmptyLast(pieces);
    ConcatEmpty(pieces);
    SplitConcat(pathname, {'/'});
    WithoutEmpty(pathname, {'/'});
  }

  /** A non-empty room id is a segment of the path after which only empty segments
      follow (trailing slashes); it holds no slash. */
  lemma RoomIdLastSegment(pathname: string)
    requires RoomId(pathname) != []
    ensures NoneIn(RoomId(pathname), {'/'})
    ensures exists k :: 0 <= k < |Split(pathname, {'/'})| && Split(pathname, {'/'})[k] == RoomId(pathname)
                        && forall j :: k < j < |Split(pathname, {'/'})| ==> Split(pathname, {'/'})[j] == []
  {
    var pieces := Split(pathname, {'/'});
    var id := RoomId(pathname);
    LastNonEmpty(pieces, id);
    var k :| 0 <= k < |pieces| && pieces[k] == id && forall j :: k < j < |pieces| ==> pieces[j] == [];
    assert NoneIn(pieces[k], {'/'});
  }

  /** The last non-empty piece sits at an index after which every piece is empty. */
  lemma LastNonEmpty(pieces: seq<string>, r: string)
    requires NonEmpty(pieces) != [] && r == NonEmpty(pieces)[|NonEmpty(pieces)| - 1]
    ensures exists k :: 0 <= k < |pieces| && pieces[k] == r && forall j :: k < j < |pieces| ==> pieces[j] == []
  {
    NonEmptyLast(pieces);
  }

  // ---------------------------------------------------------------------------
  // Records and classification
  // ---------------------------------------------------------------------------

  datatype CommentType = NormalComment | NotifyComment | RoomBottomMessage

  /** The `type` string a record carries. */
  function TypeName(t: CommentType): string {
    match t
    case NormalComment => "normal-comment"
    case NotifyComment => "notify-comment"
    case RoomBottomMessage => "room-bottom-message"
  }

  /** The marker class of a system-notice row inside the list. */
  const NoticeClass := "webcast-chatroom__room-message"

  /** The nickname given to system notices. */
  const NoticeNickname := "系统通知"

  /** The `SAVE_COMMENT` payload. It has no timestamp: storage stamps it on arrival.
      `imgs` is `None` when the badge slot was a text node, whose `outerHTML` is
      `undefined` (the property then vanishes from the serialised message). */
  datatype Record = Record(
    nickname: string,
    level: string,
    typ: CommentType,
    imgs: Option<string>,
    content: string,
    contimes: string,
    html: string,
    roomTitle: string,
    raw: string,
    url: string)

  /** `node.getAttribute("data-index")` is truthy: present and not empty. */
  predicate HasListIndex(n: Node) {
    var index := GetAttribute(n, "data-index");
    index.Some? && index.value != ""
  }

  /** `node.querySelectorAll(".webcast-chatroom__room-message").length > 0`. */
  predicate HasNotice(n: Node) {
    |QueryAll(n, Class(NoticeClass))| > 0
  }

  function Classify(n: Node): CommentType {
    if HasListIndex(n) then (if HasNotice(n) then NotifyComment else NormalComment)
    else RoomBottomMessage
  }

  /** Every node gets exactly one of the three types: a notice row with a list index,
      another row with a list index, or a row without one. */
  lemma TypePartition(n: Node)
    ensures Classify(n) == NotifyComment <==>
              ("data-index" in n.attrs && n.attrs["data-index"] != "" && IsElement(n)
               && exists m :: m in QueryAll(n, Class(NoticeClass)))
    ensures Classify(n) == NormalComment <==>
              ("data-index" in n.attrs && n.attrs["data-index"] != "" && IsElement(n)
               && forall m :: m !in QueryAll(n, Class(NoticeClass)))
    ensures Classify(n) == RoomBottomMessage <==>
              !(IsElement(n) && "data-index" in n.attrs && n.attrs["data-index"] != "")
  {
    var ms := QueryAll(n, Class(NoticeClass));
    if |ms| > 0 {
      assert ms[0] in ms;
    }
  }

  /** `node.innerText || ""`. */
  function FullText(n: Node): string {
    InnerText(n).GetOr("")
  }

  // ---------------------------------------------------------------------------
  // The two parse tiers
  // ---------------------------------------------------------------------------

  /** The structured fields the parser fills in. */
  datatype Fields = Fields(nickname: string, level: string, imgs: Option<string>, content: string, contimes: string)

  /** The fields before any tier has run. */
  const Unset := Fields("", "", Some(""), "", "")

  /** Outcome of the structural tier: it ran to the end, or raised an exception and left
      the fields as they stood at that point. */
  datatype Tier = Completed(fields: Fields) | Threw(fields: Fields)

  /** `node.querySelector('span').parentElement.childNodes`; `None` when there is no span
      (the access through `null` raises). */
  function SpanSiblings(n: Node): Option<seq<Node>> {
    match QueryFirst(n, Tag("span"))
    case None => None
    case Some(h) => Some(Parent(h).children)
  }

  /** The level token in the `src` of the first `img` inside the badge slot, or "". */
  function BadgeLevel(slot: Node): string {
    match QueryFirst(slot, Tag("img"))
    case None => ""
    case Some(h) => LevelToken(GetAttribute(h.node, "src").GetOr("")).GetOr("")
  }

  /** `sibling.innerText || "Unknown"`: a text node has no `innerText`. */
  function NicknameText(n: Node): string {
    var t := InnerText(n);
    if t.Some? && t.value != "" then t.value else "Unknown"
  }

  /** `s.replace(/[:：]$/, "")`: one colon removed when it is the last character. */
  function StripTrailingColon(s: string): string {
    if |s| > 0 && s[|s| - 1] in Colons then s[..|s| - 1] else s
  }

  /** The nickname the structural tier reads from sibling 1. */
  function Nickname(slot: Node): string {
    Trim(StripTrailingColon(NicknameText(slot)))
  }

  /** `nodes.map(n => n.innerText)`, where `join` turns a text node's `undefined` into "". */
  function TextsOf(ns: seq<Node>): (r: seq<string>)
    ensures |r| == |ns|
  {
    seq(|ns|, i requires 0 <= i < |ns| => InnerText(ns[i]).GetOr(""))
  }

  /** `imgs.map(img => img.outerHTML)`. */
  function HtmlOf(ns: seq<Node>): (r: seq<string>)
    ensures |r| == |ns|
  {
    seq(|ns|, i requires 0 <= i < |ns| => ns[i].html)
  }

  /** The markup of every image inside `n`, one per line. */
  function ImageMarkup(n: Node): string {
    Join(HtmlOf(QueryAll(n, Tag("img"))), "\n")
  }

  /** The content the structural tier reads from the siblings after the nickname. */
  function SlotContent(slots: seq<Node>): string {
    Trim(Concat(TextsOf(slots)))
  }

  /** The structural tier over the span's siblings: badge in sibling 0, nickname in
      sibling 1, content from sibling 2 on. With fewer than two siblings nothing is read
      and nothing raises; a text node in the badge slot or in slot 2, or a missing slot 2,
      raises after the fields assigned so far. */
  function SlotTier(sib: seq<Node>): Tier {
    if |sib| < 2 then Completed(Unset)
    else
      var badge := Unset.(imgs := OuterHtml(sib[0]));
      if !IsElement(sib[0]) then Threw(badge)
      else
        var f := badge.(level := BadgeLevel(sib[0]),
                        nickname := Nickname(sib[1]),
                        content := SlotContent(sib[2..]));
        if |sib| == 2 || !IsElement(sib[2]) then Threw(f)
        else Completed(f.(contimes := ImageMarkup(sib[2])))
  }

  /** The structural tier: raises with nothing set when the node has no span. */
  function StructuralTier(n: Node): Tier {
    match SpanSiblings(n)
    case None => Threw(Unset)
    case Some(sib) => SlotTier(sib)
  }

  /** The recovery tier: the trimmed text, split at its colons when it has any; the piece
      before the first colon is the nickname, the other pieces glued together the content. */
  function Fallback(f: Fields, fullText: string): Fields {
    var t := Trim(fullText);
    var m := Split(t, Colons);
    if |m| >= 2 then f.(nickname := Trim(m[0]), content := Trim(Concat(m[1..])))
    else f.(content := t)
  }

  function ParsedFields(n: Node): Fields {
    if Classify(n) == NotifyComment then Fields(NoticeNickname, "", Some(""), Trim(FullText(n)), "")
    else
      match StructuralTier(n)
      case Completed(f) => f
      case Threw(f) => Fallback(f, FullText(n))
  }

  /** The record sent for a node that passed the gate, or `None` when its visible text
      is blank. */
  function Parse(n: Node, doc: Document): Option<Record> {
    if Trim(FullText(n)) == [] then None
    else
      var f := ParsedFields(n);
      Some(Record(f.nickname, f.level, Classify(n), f.imgs, f.content, f.contimes, n.html,
                  RoomTitle(doc.title, doc.pathname), FullText(n), doc.href))
  }

  /** The level lookup of the try block: the badge's first image, its `src`, the match. */
  method ReadLevel(slot: Node) returns (level: string)
    ensures level == BadgeLevel(slot)
  {
    level := "";
    var img := QueryFirst(slot, Tag("img"));
    if img.Some? {
      var src := GetAttribute(img.value.node, "src").GetOr("");
      var levelMatch := LevelToken(src);
      if levelMatch.Some? {
        level := levelMatch.value;
      }
    }
  }

  /** The nickname step: sibling 1's text, "Unknown" when it has none, one trailing
      colon removed, then trimmed. */
  method ReadNickname(slot: Node) returns (nickname: string)
    ensures nickname == Nickname(slot)
  {
    nickname := InnerText(slot).GetOr("");
    if nickname == "" {
      nickname := "Unknown";
    }
    nickname := Trim(StripTrailingColon(nickname));
  }

  /** The content step: `slice(2)`, `map(span => span.innerText)`, `join('')`, `trim()`. */
  method ReadContent(slots: seq<Node>) returns (content: string)
    ensures content == SlotContent(slots)
  {
    var texts := TextsOf(slots);
    var joined := Concat(texts);
    content := Trim(joined);
  }

  /** The inline-image step: every image of slot 2, its markup, one per line. */
  method ReadImages(slot: Node) returns (contimes: string)
    ensures contimes == ImageMarkup(slot)
  {
    var imgs := QueryAll(slot, Tag("img"));
    var markup := HtmlOf(imgs);
    contimes := Join(markup, "\n");
  }

  /** The try block of `processCommentNode` once the span's siblings are known: the
      locals it assigns one after the other, and `Threw` at each point where it raises
      (a text node in the badge slot; slot 2 missing or a text node). */
  method ReadSlots(spanElements: seq<Node>) returns (t: Tier)
    ensures t == SlotTier(spanElements)
  {
    var nickname, content, level, imgs, contimes := "", "", "", Some(""), "";
    if |spanElements| >= 2 {
      imgs := OuterHtml(spanElements[0]);
      if !IsElement(spanElements[0]) {
        return Threw(Fields(nickname, level, imgs, content, contimes));
      }
      level := ReadLevel(spanElements[0]);
      nickname := ReadNickname(spanElements[1]);
      content := ReadContent(spanElements[2..]);
      if |spanElements| < 3 || !IsElement(spanElements[2]) {
        return Threw(Fields(nickname, level, imgs, content, contimes));
      }
      contimes := ReadImages(spanElements[2]);
    }
    t := Completed(Fields(nickname, level, imgs, content, contimes));
  }

  /** The whole try block: it raises at once when the node has no span. */
  method TryStructural(node: Node) returns (t: Tier)
    ensures t == StructuralTier(node)
  {
    var span := QueryFirst(node, Tag("span"));
    if span.None? {
      return Threw(Unset);
    }
    t := ReadSlots(Parent(span.value).children);
  }

  /** The type decision at the top of `processCommentNode`. */
  method ClassifyNode(node: Node) returns (typ: CommentType)
    ensures typ == Classify(node)
  {
    var index := GetAttribute(node, "data-index");
    if index.Some? && index.value != "" {
      if |QueryAll(node, Class(NoticeClass))| > 0 {
        typ := NotifyComment;
      } else {
        typ := NormalComment;
      }
    } else {
      typ := RoomBottomMessage;
    }
  }

  /** The catch block: the trimmed text split at its colons. */
  method Recover(f: Fields, fullText: string) returns (g: Fields)
    ensures g == Fallback(f, fullText)
  {
    var content := Trim(fullText);
    var m := Split(content, Colons);
    if |m| >= 2 {
      g := f.(nickname := Trim(m[0]), content := Trim(Concat(m[1..])));
    } else {
      g := f.(content := content);
    }
  }

  /** `processCommentNode` after its gate: the type, the blank-text exit, the try block
      and its catch block, the notice branch, and the message payload. */
  method BuildRecord(node: Node, doc: Document) returns (r: Option<Record>)
    ensures r == Parse(node, doc)
  {
    var typ := ClassifyNode(node);
    var fullText := InnerText(node).GetOr("");
    if Trim(fullText) == [] {
      return None;
    }

    var f := Unset;
    if typ == NormalComment || typ == RoomBottomMessage {
      var tier := TryStructural(node);
      f := tier.fields;
      if tier.Threw? {
        f := Recover(f, fullText);
      }
    } else if typ == NotifyComment {
      f := f.(content := Trim(fullText), nickname := NoticeNickname);
    }

    r := Some(Record(f.nickname, f.level, typ, f.imgs, f.content, f.contimes, node.html,
                     RoomTitle(doc.title, doc.pathname), fullText, doc.href));
  }

  // ---------------------------------------------------------------------------
  // What the parser promises
  // ---------------------------------------------------------------------------

  /** A node yields a record exactly when its visible text is not all whitespace; the
      record keeps that text untrimmed as `raw` (so `raw` is never empty), the node's
      markup as `html`, its type, the room title and the page URL. */
  lemma RecordProvenance(n: Node, doc: Document)
    ensures Parse(n, doc).Some? <==> !AllSpace(FullText(n))
    ensures Parse(n, doc).Some? ==>
              var r := Parse(n, doc).value;
              r.raw == FullText(n) && |r.raw| > 0 && r.html == n.html && r.typ == Classify(n)
              && r.roomTitle == RoomTitle(doc.title, doc.pathname) && r.url == doc.href
  {
    TrimEmptyIffAllSpace(FullText(n));
  }

  /** The record of a node with visible text carries the parsed fields. */
  lemma ParseFields(n: Node, doc: Document)
    requires !AllSpace(FullText(n))
    ensures var f := ParsedFields(n);
            Parse(n, doc) == Some(Record(f.nickname, f.level, Classify(n), f.imgs, f.content, f.contimes,
                                         n.html, RoomTitle(doc.title, doc.pathname), FullText(n), doc.href))
  {
    TrimEmptyIffAllSpace(FullText(n));
  }

  /** A notice row is sent with the fixed nickname, its trimmed text as content and no
      badge, level or inline images. */
  lemma NotifyRecord(n: Node, doc: Document)
    requires Classify(n) == NotifyComment && !AllSpace(FullText(n))
    ensures Parse(n, doc).Some?
    ensures var r := Parse(n, doc).value;
            r.nickname == NoticeNickname && r.content == Trim(FullText(n))
            && r.level == "" && r.imgs == Some("") && r.contimes == ""
  {
    TrimEmptyIffAllSpace(FullText(n));
  }

  /** The level is "" or a `v<digits>_<digits>` token that stands between `level_` and
      `.png` in the `src` of the badge slot's first image. */
  lemma BadgeLevelSpec(slot: Node)
    ensures BadgeLevel(slot) == "" || (
              QueryFirst(slot, Tag("img")).Some? && LevelShaped(BadgeLevel(slot))
              && exists i :: MatchesAt(GetAttribute(QueryFirst(slot, Tag("img")).value.node, "src").GetOr(""), i, BadgeLevel(slot)))
  {
    match QueryFirst(slot, Tag("img"))
    case None =>
    case Some(h) =>
      var src := GetAttribute(h.node, "src").GetOr("");
      LevelTokenSound(src);
  }

  /** With a full layout (badge and content slots are elements) the structural tier
      completes and the fallback does not run: `imgs` is the badge markup, `level` comes
      from the badge, the nickname is sibling 1's text without one trailing colon and
      surrounding whitespace, the content the trimmed texts of siblings 2 and on,
      `contimes` the images of sibling 2. */
  lemma StructuralRecord(n: Node, sib: seq<Node>)
    requires Classify(n) != NotifyComment
    requires SpanSiblings(n) == Some(sib) && |sib| >= 3 && IsElement(sib[0]) && IsElement(sib[2])
    ensures var f := ParsedFields(n);
            f.imgs == Some(sib[0].html) && f.level == BadgeLevel(sib[0])
            && f.nickname == Nickname(sib[1])
            && f.content == SlotContent(sib[2..])
            && f.contimes == ImageMarkup(sib[2])
  {
    assert StructuralTier(n) == SlotTier(sib);
  }

  /** Fewer than two siblings: the tier reads nothing and raises nothing, so the fallback
      does not run and every structured field stays empty, the content included, however
      much text the node shows. */
  lemma ShortSiblingList(n: Node, sib: seq<Node>)
    requires Classify(n) != NotifyComment
    requires SpanSiblings(n) == Some(sib) && |sib| < 2
    ensures ParsedFields(n) == Unset
  {
    assert StructuralTier(n) == SlotTier(sib) == Completed(Unset);
  }

  /** Without a colon in the trimmed text, the fallback sets the content to that text
      and keeps every other field, the nickname included. */
  lemma FallbackNoColon(f: Fields, fullText: string)
    requires NoneIn(Trim(fullText), Colons)
    ensures Fallback(f, fullText) == f.(content := Trim(fullText))
  {
    SplitCount(Trim(fullText), Colons);
  }

  /** With its first colon at `k`, the trimmed text gives the nickname before `k` and
      the content after it with every further colon dropped, both trimmed; neither holds
      a colon, and level, imgs and contimes are kept. */
  lemma FallbackColon(f: Fields, fullText: string, k: nat)
    requires var t := Trim(fullText); k < |t| && t[k] in Colons && NoneIn(t[..k], Colons)
    ensures var g, t := Fallback(f, fullText), Trim(fullText);
            g == f.(nickname := Trim(t[..k]), content := Trim(Without(t[k + 1..], Colons)))
            && NoneIn(g.nickname, Colons) && NoneIn(g.content, Colons)
  {
    var t := Trim(fullText);
    SplitAtFirst(t, Colons, k);
    TrimNoneIn(t[..k], Colons);
    TrimNoneIn(Without(t[k + 1..], Colons), Colons);
  }

  /** No span at all: the try block raises before setting anything, so only the
      recovery tier contributes. */
  lemma NoSpanFallback(n: Node)
    requires Classify(n) != NotifyComment
    requires SpanSiblings(n).None?
    ensures ParsedFields(n) == Fallback(Unset, FullText(n))
  {
    assert StructuralTier(n) == Threw(Unset);
  }

  /** Exactly two siblings: `spanElements[2]` is missing, so the try block raises after
      `imgs`, `level` and `nickname` were set from the two slots; the fallback then
      replaces the content, and the nickname too only when the text has a colon. */
  lemma ExactlyTwoSiblings(n: Node, sib: seq<Node>)
    requires Classify(n) != NotifyComment
    requires SpanSiblings(n) == Some(sib) && |sib| == 2 && IsElement(sib[0])
    ensures var f, t := ParsedFields(n), Trim(FullText(n));
            f.imgs == Some(sib[0].html) && f.level == BadgeLevel(sib[0]) && f.contimes == ""
            && (NoneIn(t, Colons) ==>
                  f.nickname == Nickname(sib[1]) && f.content == t)
  {
    var f := TwoSlots(sib);
    assert ParsedFields(n) == Fallback(f, FullText(n));
    if NoneIn(Trim(FullText(n)), Colons) {
      FallbackNoColon(f, FullText(n));
    }
  }

  lemma TwoSlots(sib: seq<Node>) returns (f: Fields)
    requires |sib| == 2 && IsElement(sib[0])
    ensures f == Fields(Nickname(sib[1]), BadgeLevel(sib[0]), Some(sib[0].html), "", "")
    ensures SlotTier(sib) == Threw(f)
  {
    f := Fields(Nickname(sib[1]), BadgeLevel(sib[0]), Some(sib[0].html), "", "");
    assert sib[2..] == [];
  }

  /** A text node in the badge slot raises right after `imgs` became its (undefined)
      markup: no level, no inline images, and without a colon no nickname. */
  lemma TextBadgeSlot(n: Node, sib: seq<Node>)
    requires Classify(n) != NotifyComment
    requires SpanSiblings(n) == Some(sib) && |sib| >= 2 && !IsElement(sib[0])
    ensures var f, t := ParsedFields(n), Trim(FullText(n));
            f.imgs == None && f.level == "" && f.contimes == ""
            && (NoneIn(t, Colons) ==> f.nickname == "" && f.content == t)
  {
    var f := Unset.(imgs := None);
    assert StructuralTier(n) == SlotTier(sib) == Threw(f);
    if NoneIn(Trim(FullText(n)), Colons) {
      FallbackNoColon(f, FullText(n));
    }
  }

  /** `replace(/[:：]$/, "")` drops the last character exactly when it is a colon. */
  lemma StripTrailingColonSpec(t: string)
    ensures var u := StripTrailingColon(t);
            u == t[..|u|] && (t == [] ==> u == t)
            && (t != [] ==> (t[|t| - 1] in Colons ==> |u| == |t| - 1) && (t[|t| - 1] !in Colons ==> u == t))
  {
  }

  /** `replace(/[:：]$/, "").trim()`: no whitespace at either end, and what is left of the
      colon-stripped text once the whitespace around it is dropped. */
  lemma CleanNicknameSpec(t: string)
    ensures var r, u := Trim(StripTrailingColon(t)), StripTrailingColon(t);
            var k := |u| - |TrimStart(u)|;
            (r == [] || (!IsSpace(r[0]) && !IsSpace(r[|r| - 1])))
            && k + |r| <= |u| && r == u[k..k + |r|]
            && (forall i :: 0 <= i < k ==> IsSpace(u[i]))
            && (forall i :: k + |r| <= i < |u| ==> IsSpace(u[i]))
  {
    var u := StripTrailingColon(t);
    TrimmedAt(u, Trim(u));
  }

  /** The nickname is "Unknown" when sibling 1 has no text (a text node, or an empty
      `innerText`), and its cleaned text otherwise. */
  lemma NicknameSpec(slot: Node)
    ensures InnerText(slot).None? || InnerText(slot).value == [] ==> Nickname(slot) == "Unknown"
    ensures InnerText(slot).Some? && InnerText(slot).value != [] ==>
              Nickname(slot) == Trim(StripTrailingColon(InnerText(slot).value))
  {
    if InnerText(slot).None? || InnerText(slot).value == [] {
      assert NicknameText(slot) == "Unknown";
      UnknownIsClean();
    }
  }

  lemma UnknownIsClean()
    ensures Trim(StripTrailingColon("Unknown")) == "Unknown"
  {
    var u := "Unknown";
    assert u[|u| - 1] == 'n' && u[0] == 'U';
    assert StripTrailingColon(u) == u;
    TrimOfTrimmed(u);
  }

  /** The content has no whitespace at either end, and is empty exactly when the slots'
      joined texts `t` are all whitespace. */
  lemma SlotContentSpec(slots: seq<Node>, t: string)
    requires t == Concat(TextsOf(slots))
    ensures var r := SlotContent(slots);
            (r == [] || (!IsSpace(r[0]) && !IsSpace(r[|r| - 1])))
            && (r == [] <==> AllSpace(t))
  {
    TrimmedEnds(t, SlotContent(slots));
  }

  /** The content is what lies between the whitespace runs of the slots' joined texts `t`. */
  lemma SlotContentInfix(slots: seq<Node>, t: string)
    requires t == Concat(TextsOf(slots))
    ensures var r, k := SlotContent(slots), |t| - |TrimStart(t)|;
            k + |r| <= |t| && r == t[k..k + |r|]
            && (forall i :: 0 <= i < k ==> IsSpace(t[i]))
            && (forall i :: k + |r| <= i < |t| ==> IsSpace(t[i]))
  {
    TrimmedAt(t, SlotContent(slots));
  }

  /** No image gives no markup; otherwise, when no image's markup holds a line break,
      splitting the joined markup at line breaks gives back each image's markup, in
      document order. */
  lemma ImageMarkupSpec(slot: Node)
    ensures QueryAll(slot, Tag("img")) == [] ==> ImageMarkup(slot) == ""
    ensures var imgs := QueryAll(slot, Tag("img"));
            imgs != [] && (forall k :: 0 <= k < |imgs| ==> NoneIn(imgs[k].html, {'\n'})) ==>
              Split(ImageMarkup(slot), {'\n'}) == HtmlOf(imgs)
  {
    var imgs := QueryAll(slot, Tag("img"));
    if imgs != [] && (forall k :: 0 <= k < |imgs| ==> NoneIn(imgs[k].html, {'\n'})) {
      JoinSplit(HtmlOf(imgs), '\n');
    }
  }
}
