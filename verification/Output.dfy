/**
 src/output.c as the program runs it: global state changed by every call, the document a real buffer, the breadcrumbs a
 real ring. Each method is proved against the functions of modules Layout and Emission. A method that can end the
 program (`die`, a failed assertion) or leave a buffer returns `ok == false` instead.
 */
module Output {
  import opened Prelude
  import opened Encoding
  import opened EncodeBuffers
  import opened Pstrings
  import opened SortedLists
  import opened PrList
  import opened Document
  import opened Layout
  import opened Emission

  type Crumb = Link<Option<string>>

  /** The ring holds these names behind its sentinel. */
  ghost predicate Names(list: Crumb, ring: seq<Crumb>, names: seq<string>)
    reads ring
  {
    Ring(ring) && ring[0] == list && |ring| == |names| + 1
    && forall i :: 0 <= i < |names| ==> ring[i + 1].data == Some(names[i]) && NoNul(names[i])
  }

  /** `pr_list_prepend_str`: in front of the sentinel, that is, last. */
  method PrependName(list: Crumb, name: string, ghost ring: seq<Crumb>, ghost names: seq<string>)
    returns (ghost grown: seq<Crumb>)
    requires Names(list, ring, names) && NoNul(name)
    modifies ring
    ensures Names(list, grown, names + [name])
    ensures |grown| == |ring| + 1 && grown[..|ring|] == ring && fresh(grown[|ring|])
  {
    var entry := new Link(Some(name));
    PrList.Prepend(list, entry, ring, 0);
    grown := ring + [entry];
    assert InsertAt(ring, |ring|, entry) == grown;
  }

  /** The texts of a call are C strings. */
  predicate CTexts(c: Call) {
    match c
    case EntryCall(name, value) => NoNul(name) && NoNul(value)
    case SectionOpenCall(name) => NoNul(name)
    case ContainerOpenCall(name) => NoNul(name)
    case _ => true
  }

  class Printer {
    const cfg: Config
    var last: Element
    var current: Element
    var indent: nat
    const doc: PString
    var crumbList: Link?<Option<string>>
    ghost var ring: seq<Crumb>
    ghost var names: seq<string>

    ghost predicate Valid()
      reads this, doc, doc.buf, ring
    {
      ValidConfig(cfg) && doc.Valid() && (indent > 0 ==> doc.len > 0) && ValidCrumbs()
    }

    /** The ring holds the names of the open groups. */
    ghost predicate ValidCrumbs()
      reads this, ring
    {
      if crumbList == null then ring == [] && names == []
      else Names(crumbList, ring, names)
    }

    ghost function View(): State
      requires Valid()
      reads this, doc, doc.buf, ring
    {
      State(last, current, indent, doc.Text(), if crumbList == null then None else Some(names))
    }

    constructor (cfg: Config)
      requires ValidConfig(cfg)
      ensures Valid() && this.cfg == cfg && View() == START && fresh(doc) && doc.buf == null && ring == []
    {
      this.cfg := cfg;
      last, current, indent := NoElement, NoElement, 0;
      doc := new PString.New();
      crumbList, ring, names := null, [], [];
    }

    /** `wappend`/`wappendf` on the document. */
    method Write(text: string)
      requires Valid() && NoNul(text)
      modifies doc
      ensures doc.buf == old(doc.buf) || fresh(doc.buf)
      ensures Valid() && View() == old(View()).(doc := old(View()).doc + text)
    {
      doc.Wappendn(text);
    }

    /** `add_indent` */
    method AddIndent()
      requires Valid()
      modifies doc
      ensures doc.buf == old(doc.buf) || fresh(doc.buf)
      ensures Valid() && View() == old(View()).(doc := old(View()).doc + Pad(cfg, indent))
    {
      if indent == 0 {
        assert doc.Text() + "" == doc.Text();
        assert Pad(cfg, 0) == "";
        return;
      }
      if cfg.indentChar == ' ' {
        doc.Wappendn(Repeat(' ', indent));
      } else {
        var buffer := new PString.Formatted(Repeat(cfg.indentChar, indent));
        doc.Pappend(buffer);
      }
    }

    /** `inc_indent` */
    method IncIndent()
      requires Valid() && doc.len > 0
      modifies this`indent
      ensures Valid() && View() == old(View()).(indent := old(indent) + cfg.indentAmount)
    {
      indent := indent + cfg.indentAmount;
    }

    /** `dec_indent`, whose assertion is that the indent does not become negative. */
    method DecIndent() returns (ok: bool)
      requires Valid()
      modifies this`indent
      ensures Valid() && ok == (old(indent) >= cfg.indentAmount)
      ensures ok ==> View() == old(View()).(indent := old(indent) - cfg.indentAmount)
    {
      if indent < cfg.indentAmount {
        return false;
      }
      indent := indent - cfg.indentAmount;
      return true;
    }

    method Shift(shift: int) returns (ok: bool)
      requires Valid() && (shift > 0 ==> doc.len > 0)
      modifies this`indent
      ensures Valid() && ok == (shift < 0 ==> old(indent) >= cfg.indentAmount)
      ensures ok ==> View() == old(View()).(indent := Shifted(cfg, old(indent), shift))
    {
      ok := true;
      if shift > 0 {
        IncIndent();
      } else if shift < 0 {
        ok := DecIndent();
      }
    }

    /** What a switch arm does: write a separator, change the indent, write the indent. */
    method Perform(lead: Lead) returns (ok: bool)
      requires Valid() && NoNul(lead.separator) && (lead.shift > 0 ==> lead.separator != "")
      modifies this`indent, doc
      ensures doc.buf == old(doc.buf) || fresh(doc.buf)
      ensures Valid()
      ensures var r := WriteLead(cfg, old(View()), lead); ok == r.Some? && (ok ==> r == Some(View()))
    {
      Write(lead.separator);
      ok := Shift(lead.shift);
      if ok && lead.pad {
        AddIndent();
      } else {
        assert doc.Text() + "" == doc.Text();
      }
    }

    /** The switch of `format_element`: what to write, or `None` for a pair of elements it does not expect. */
    method Expected() returns (lead: Option<Lead>)
      ensures lead == LeadFor(cfg.format, last, current)
      ensures lead.Some? ==> NoNul(lead.value.separator) && (lead.value.shift > 0 ==> lead.value.separator != "")
    {
      match cfg.format {
        case Text => lead := FormatTextElement(last, current);
        case Crumb => lead := Some(NOTHING);
        case Json => lead := FormatJsonElement(last, current);
        case Xml => lead := FormatXmlElement(last, current);
      }
      LeadIsPlain(cfg.format, last, current);
    }

    /** `format_element`: `false` stands for `assert_not_reached`. */
    method FormatElement() returns (ok: bool)
      requires Valid()
      modifies this`indent, doc
      ensures doc.buf == old(doc.buf) || fresh(doc.buf)
      ensures Valid()
      ensures var r := Lay(cfg, old(View()), LeadFor(cfg.format, last, current));
              ok == r.Some? && (ok ==> r == Some(View()))
    {
      var lead := Expected();
      if lead.None? {
        return false;
      }
      ok := Perform(lead.value);
    }

    /** `change_element` */
    method ChangeElement(e: Element) returns (ok: bool)
      requires Valid()
      modifies this`last, this`current, this`indent, doc
      ensures doc.buf == old(doc.buf) || fresh(doc.buf)
      ensures Valid()
      ensures var r := Layout.ChangeElement(cfg, old(View()), e); ok == r.Some? && (ok ==> r == Some(View()))
    {
      last := current;
      current := e;
      ok := FormatElement();
    }

    /** `encode_string` on a copy of a C string. */
    method Encoded(s: string) returns (r: Option<string>)
      requires ValidConfig(cfg) && NoNul(s)
      ensures r == if Fits(cfg.format, cfg.printable, s) then Some(Quoted(cfg, s)) else None
      ensures r.Some? ==> NoNul(r.value)
    {
      var p := new PString.Create(s);
      var q := EncodeString(cfg.format, cfg.printable, p);
      if q.None? {
        return None;
      }
      return Some(q.value.buf[..q.value.len - 1]);
    }

    // ----- breadcrumbs

    /** The sentinel, made when the first breadcrumb comes. */
    method NeedCrumbList()
      requires Valid()
      modifies this`crumbList, this`ring, this`names
      ensures Valid() && crumbList != null
      ensures old(crumbList) != null ==> ring == old(ring) && crumbList == old(crumbList) && names == old(names)
      ensures old(crumbList) == null ==> fresh(crumbList) && ring == [crumbList] && names == []
    {
      if crumbList == null {
        crumbList := new Link(None);
        ring, names := [crumbList], [];
      }
    }

    method PushCrumb(name: string)
      requires Valid() && NoNul(name) && crumbList != null
      modifies this`ring, this`names, ring
      ensures Valid() && names == old(names) + [name]
      ensures forall i :: 0 <= i < |ring| ==> ring[i] in old(ring) || fresh(ring[i])
    {
      ring := PrependName(crumbList, name, ring, names);
      names := names + [name];
    }

    /** `add_breadcrumb` */
    method AddBreadcrumb(name: string)
      requires Valid() && NoNul(name)
      modifies this`crumbList, this`ring, this`names, ring
      ensures Valid() && View() == Push(old(View()), name)
      ensures forall i :: 0 <= i < |ring| ==> ring[i] in old(ring) || fresh(ring[i])
    {
      NeedCrumbList();
      PushCrumb(name);
    }

    /** `remove_breadcrumb`; the sentinel itself must not be the entry before the sentinel. */
    method RemoveBreadcrumb() returns (ok: bool)
      requires Valid()
      modifies this`ring, this`names, ring
      ensures var r := Pop(old(View())); ok == r.Some? && (ok ==> Valid() && r == Some(View()))
      ensures ok ==> forall i :: 0 <= i < |ring| ==> ring[i] in old(ring)
    {
      if crumbList == null || crumbList.prev == crumbList {
        assert crumbList != null ==> |ring| == 1;
        return false;
      }
      ghost var k := |ring| - 1;
      assert crumbList.prev == ring[k] && k > 0;
      PrList.Remove(crumbList.prev, ring, k);
      assert ring[..k] + ring[k + 1..] == ring[..k];
      ring := ring[..k];
      names := names[..k - 1];
      return true;
    }

    /** Every crumb and its separator, for an `entry`. */
    method WriteCrumbs() returns (ok: bool)
      requires Valid()
      modifies doc
      ensures doc.buf == old(doc.buf) || fresh(doc.buf)
      ensures Valid() && ok == View().crumbs.Some?
      ensures ok ==> View() == old(View()).(doc := old(View()).doc + CrumbPrefix(cfg, names))
    {
      if crumbList == null {
        return false;
      }
      WriteRing(doc, cfg, crumbList, ring, names);
      return true;
    }

    // ----- the calls

    /** `name_to_wide_name`; an empty name cannot be converted. */
    method NameToWideName(name: string) returns (r: Option<string>)
      requires ValidConfig(cfg) && NoNul(name)
      ensures r == if Sayable(cfg, name) then Some(Quoted(cfg, name)) else None
      ensures r.Some? ==> NoNul(r.value)
    {
      if name == "" {
        return None;
      }
      r := Encoded(name);
    }

    /** `object_open` with `retain` false: invisible outside JSON. */
    method ObjectOpen() returns (ok: bool)
      requires Valid()
      modifies this`last, this`current, this`indent, this`crumbList, this`ring, this`names, doc, ring
      ensures doc.buf == old(doc.buf) || fresh(doc.buf)
      ensures var r := Apply(cfg, old(View()), ObjectOpenCall); ok == r.Some? && (ok ==> Valid() && r == Some(View()))
      ensures ok ==> forall i :: 0 <= i < |ring| ==> ring[i] in old(ring) || fresh(ring[i])
    {
      if cfg.format != Json {
        return true;
      }
      ok := ChangeElement(Layout.ObjectOpen);
      if ok {
        Write("{");
      }
    }

    /** `object_close` with `retain` false: invisible outside JSON. */
    method ObjectClose() returns (ok: bool)
      requires Valid()
      modifies this`last, this`current, this`indent, this`crumbList, this`ring, this`names, doc, ring
      ensures doc.buf == old(doc.buf) || fresh(doc.buf)
      ensures var r := Apply(cfg, old(View()), ObjectCloseCall); ok == r.Some? && (ok ==> Valid() && r == Some(View()))
      ensures ok ==> forall i :: 0 <= i < |ring| ==> ring[i] in old(ring) || fresh(ring[i])
    {
      if cfg.format != Json {
        return true;
      }
      ok := ChangeElement(Layout.ObjectClose);
      if ok {
        Write("}");
      }
    }

    /** The switch of `section_open`. */
    method SaySectionOpen(name: string, encoded: string)
      requires Valid() && NoNul(name) && NoNul(encoded)
      modifies this`crumbList, this`ring, this`names, doc, ring
      ensures doc.buf == old(doc.buf) || fresh(doc.buf)
      ensures Valid()
      ensures Some(View()) == Say(cfg, old(View()), SectionOpenCall(name), SectionHead(cfg.format, encoded))
      ensures forall i :: 0 <= i < |ring| ==> ring[i] in old(ring) || fresh(ring[i])
    {
      match cfg.format {
        case Text => Write(encoded + ":");
        case Crumb =>
          AddBreadcrumb(name);
          assert doc.Text() + "" == doc.Text();
        case Json => Write("\"" + encoded + "\" : {");
        case Xml => Write(OpenTag("section", encoded));
      }
    }

    method PutSectionOpen(name: string, encoded: string) returns (ok: bool)
      requires Valid() && NoNul(name) && NoNul(encoded)
      modifies this`last, this`current, this`indent, this`crumbList, this`ring, this`names, doc, ring
      ensures doc.buf == old(doc.buf) || fresh(doc.buf)
      ensures var r := Put(cfg, old(View()), SectionOpenCall(name), SectionHead(cfg.format, encoded));
              ok == r.Some? && (ok ==> Valid() && r == Some(View()))
      ensures ok ==> forall i :: 0 <= i < |ring| ==> ring[i] in old(ring) || fresh(ring[i])
    {
      ok := ChangeElement(Layout.SectionOpen);
      if ok {
        SaySectionOpen(name, encoded);
      }
    }

    /** `section_open` */
    method SectionOpen(name: string) returns (ok: bool)
      requires Valid() && NoNul(name)
      modifies this`last, this`current, this`indent, this`crumbList, this`ring, this`names, doc, ring
      ensures doc.buf == old(doc.buf) || fresh(doc.buf)
      ensures var r := Apply(cfg, old(View()), SectionOpenCall(name));
              ok == r.Some? && (ok ==> Valid() && r == Some(View()))
      ensures ok ==> forall i :: 0 <= i < |ring| ==> ring[i] in old(ring) || fresh(ring[i])
    {
      var encoded := NameToWideName(name);
      if encoded.None? {
        return false;
      }
      ok := PutSectionOpen(name, encoded.value);
    }

    /** The switch of `section_close`. */
    method SaySectionClose() returns (ok: bool)
      requires Valid()
      modifies this`ring, this`names, doc, ring
      ensures doc.buf == old(doc.buf) || fresh(doc.buf)
      ensures var r := Say(cfg, old(View()), SectionCloseCall, SectionTail(cfg.format));
              ok == r.Some? && (ok ==> Valid() && r == Some(View()))
      ensures ok ==> forall i :: 0 <= i < |ring| ==> ring[i] in old(ring)
    {
      ok := true;
      match cfg.format {
        case Text =>
        case Crumb => ok := RemoveBreadcrumb();
        case Json => Write("}");
        case Xml => Write(CloseTag("section"));
      }
      assert ok ==> doc.Text() + "" == doc.Text();
    }

    /** `section_close` */
    method SectionClose() returns (ok: bool)
      requires Valid()
      modifies this`last, this`current, this`indent, this`crumbList, this`ring, this`names, doc, ring
      ensures doc.buf == old(doc.buf) || fresh(doc.buf)
      ensures var r := Apply(cfg, old(View()), SectionCloseCall); ok == r.Some? && (ok ==> Valid() && r == Some(View()))
      ensures ok ==> forall i :: 0 <= i < |ring| ==> ring[i] in old(ring) || fresh(ring[i])
    {
      ok := ChangeElement(Layout.SectionClose);
      if ok {
        ok := SaySectionClose();
      }
    }

    /** The switch of `container_open`. */
    method SayContainerOpen(name: string, encoded: string)
      requires Valid() && NoNul(name) && NoNul(encoded)
      modifies this`crumbList, this`ring, this`names, doc, ring
      ensures doc.buf == old(doc.buf) || fresh(doc.buf)
      ensures Valid()
      ensures Some(View()) == Say(cfg, old(View()), ContainerOpenCall(name), ContainerHead(cfg.format, encoded))
      ensures forall i :: 0 <= i < |ring| ==> ring[i] in old(ring) || fresh(ring[i])
    {
      match cfg.format {
        case Text => Write(encoded + ":");
        case Crumb =>
          AddBreadcrumb(name);
          assert doc.Text() + "" == doc.Text();
        case Json => Write("\"" + encoded + "\" : [");
        case Xml => Write(OpenTag("container", encoded));
      }
    }

    method PutContainerOpen(name: string, encoded: string) returns (ok: bool)
      requires Valid() && NoNul(name) && NoNul(encoded)
      modifies this`last, this`current, this`indent, this`crumbList, this`ring, this`names, doc, ring
      ensures doc.buf == old(doc.buf) || fresh(doc.buf)
      ensures var r := Put(cfg, old(View()), ContainerOpenCall(name), ContainerHead(cfg.format, encoded));
              ok == r.Some? && (ok ==> Valid() && r == Some(View()))
      ensures ok ==> forall i :: 0 <= i < |ring| ==> ring[i] in old(ring) || fresh(ring[i])
    {
      ok := ChangeElement(Layout.ContainerOpen);
      if ok {
        SayContainerOpen(name, encoded);
      }
    }

    /** `container_open` */
    method ContainerOpen(name: string) returns (ok: bool)
      requires Valid() && NoNul(name)
      modifies this`last, this`current, this`indent, this`crumbList, this`ring, this`names, doc, ring
      ensures doc.buf == old(doc.buf) || fresh(doc.buf)
      ensures var r := Apply(cfg, old(View()), ContainerOpenCall(name));
              ok == r.Some? && (ok ==> Valid() && r == Some(View()))
      ensures ok ==> forall i :: 0 <= i < |ring| ==> ring[i] in old(ring) || fresh(ring[i])
    {
      var encoded := NameToWideName(name);
      if encoded.None? {
        return false;
      }
      ok := PutContainerOpen(name, encoded.value);
    }

    /** The switch of `container_close`. */
    method SayContainerClose() returns (ok: bool)
      requires Valid()
      modifies this`ring, this`names, doc, ring
      ensures doc.buf == old(doc.buf) || fresh(doc.buf)
      ensures var r := Say(cfg, old(View()), ContainerCloseCall, ContainerTail(cfg.format));
              ok == r.Some? && (ok ==> Valid() && r == Some(View()))
      ensures ok ==> forall i :: 0 <= i < |ring| ==> ring[i] in old(ring)
    {
      ok := true;
      match cfg.format {
        case Text =>
        case Crumb => ok := RemoveBreadcrumb();
        case Json => Write("]");
        case Xml => Write(CloseTag("container"));
      }
      assert ok ==> doc.Text() + "" == doc.Text();
    }

    /** `container_close` */
    method ContainerClose() returns (ok: bool)
      requires Valid()
      modifies this`last, this`current, this`indent, this`crumbList, this`ring, this`names, doc, ring
      ensures doc.buf == old(doc.buf) || fresh(doc.buf)
      ensures var r := Apply(cfg, old(View()), ContainerCloseCall);
              ok == r.Some? && (ok ==> Valid() && r == Some(View()))
      ensures ok ==> forall i :: 0 <= i < |ring| ==> ring[i] in old(ring) || fresh(ring[i])
    {
      ok := ChangeElement(Layout.ContainerClose);
      if ok {
        ok := SayContainerClose();
      }
    }

    /** The text the switch of `entry` writes. */
    method EntryLine(name: string, value: string) returns (text: string)
      requires ValidConfig(cfg) && NoNul(name) && NoNul(value)
      ensures text == EntryText(cfg, name, value) && NoNul(text)
    {
      match cfg.format {
        case Text => text := name + cfg.textSeparator + value;
        case Crumb => text := name + cfg.textSeparator + value + "\n";
        case Json => text := "\"" + name + "\" : \"" + value + "\"";
        case Xml => text := OpenTag("entry", name) + value + CloseTag("entry");
      }
    }

    /** The switch of `entry`: breadcrumbs come before the text. */
    method SayEntry(ghost call: Call, text: string) returns (ok: bool)
      requires Valid() && NoNul(text) && call.EntryCall?
      modifies doc
      ensures doc.buf == old(doc.buf) || fresh(doc.buf)
      ensures var r := Say(cfg, old(View()), call, text); Valid() && ok == r.Some? && (ok ==> r == Some(View()))
    {
      ok := true;
      if cfg.format == Crumb {
        ok := WriteCrumbs();
      }
      if ok {
        Write(text);
      }
    }

    /** The rest of `entry` once the element has changed. */
    method EncodeEntry(name: string, value: string) returns (ok: bool)
      requires Valid() && NoNul(name) && NoNul(value)
      modifies doc
      ensures doc.buf == old(doc.buf) || fresh(doc.buf)
      ensures var c := EntryCall(name, value);
              var r := if CallOk(cfg, c) then Say(cfg, old(View()), c, Body(cfg, c)) else None;
              Valid() && ok == r.Some? && (ok ==> r == Some(View()))
    {
      var encodedName := NameToWideName(name);
      var encodedValue := Encoded(value);
      if encodedName.None? || encodedValue.None? {
        return false;
      }
      var text := EntryLine(encodedName.value, encodedValue.value);
      ok := SayEntry(EntryCall(name, value), text);
    }

    /** `entry`; `value` is the formatted text. */
    method Entry(name: string, value: string) returns (ok: bool)
      requires Valid() && NoNul(name) && NoNul(value)
      modifies this`last, this`current, this`indent, this`crumbList, this`ring, this`names, doc, ring
      ensures doc.buf == old(doc.buf) || fresh(doc.buf)
      ensures var r := Apply(cfg, old(View()), EntryCall(name, value));
              ok == r.Some? && (ok ==> Valid() && r == Some(View()))
      ensures ok ==> forall i :: 0 <= i < |ring| ==> ring[i] in old(ring) || fresh(ring[i])
    {
      ok := ChangeElement(EntryElement);
      if ok {
        ok := EncodeEntry(name, value);
      }
    }

    /** Any one call. */
    method Do(c: Call) returns (ok: bool)
      requires Valid() && CTexts(c)
      modifies this`last, this`current, this`indent, this`crumbList, this`ring, this`names, doc, ring
      ensures doc.buf == old(doc.buf) || fresh(doc.buf)
      ensures var r := Stepper(cfg)(old(View()), c); ok == r.Some? && (ok ==> Valid() && r == Some(View()))
      ensures ok ==> forall i :: 0 <= i < |ring| ==> ring[i] in old(ring) || fresh(ring[i])
    {
      match c {
        case EntryCall(name, value) => ok := Entry(name, value);
        case SectionOpenCall(name) => ok := SectionOpen(name);
        case SectionCloseCall => ok := SectionClose();
        case ContainerOpenCall(name) => ok := ContainerOpen(name);
        case ContainerCloseCall => ok := ContainerClose();
        case ObjectOpenCall => ok := ObjectOpen();
        case ObjectCloseCall => ok := ObjectClose();
      }
    }

    /** Any run of calls. */
    method DoAll(calls: seq<Call>) returns (ok: bool)
      requires Valid() && forall i :: 0 <= i < |calls| ==> CTexts(calls[i])
      modifies this`last, this`current, this`indent, this`crumbList, this`ring, this`names, doc, ring
      ensures doc.buf == old(doc.buf) || fresh(doc.buf)
      ensures var r := Run(Stepper(cfg), old(View()), calls); ok == r.Some? && (ok ==> Valid() && r == Some(View()))
      ensures ok ==> forall i :: 0 <= i < |ring| ==> ring[i] in old(ring) || fresh(ring[i])
      decreases |calls|
    {
      if calls == [] {
        return true;
      }
      ok := Do(calls[0]);
      if ok {
        ok := DoAll(calls[1..]);
      }
    }

    method BeginXml(declaration: string, root: string)
      requires Valid() && declaration != "" && NoNul(declaration) && NoNul(root)
      modifies this`indent, doc
      ensures doc.buf == old(doc.buf) || fresh(doc.buf)
      ensures Valid()
      ensures var st := old(View());
              View() == st.(doc := st.doc + declaration + root, indent := st.indent + cfg.indentAmount)
    {
      Write(declaration);
      Write(root);
      IncIndent();
    }

    method EndXml(newline: string, end: string) returns (ok: bool)
      requires Valid() && NoNul(newline) && NoNul(end)
      modifies this`indent, doc
      ensures doc.buf == old(doc.buf) || fresh(doc.buf)
      ensures Valid() && ok == (old(indent) >= cfg.indentAmount)
      ensures var st := old(View());
              ok ==> View() == st.(doc := st.doc + newline + end, indent := st.indent - cfg.indentAmount)
    {
      Write(newline);
      ok := DecIndent();
      if ok {
        Write(end);
      }
    }

    /** The switch of `master_header`. */
    method Begin(declaration: string, root: string) returns (ok: bool)
      requires Valid() && declaration != "" && NoNul(declaration) && NoNul(root)
      modifies this`last, this`current, this`indent, this`crumbList, this`ring, this`names, doc, ring
      ensures doc.buf == old(doc.buf) || fresh(doc.buf)
      ensures var r := Emission.Begin(cfg, old(View()), declaration, root);
              ok == r.Some? && (ok ==> Valid() && r == Some(View()))
      ensures ok ==> forall i :: 0 <= i < |ring| ==> ring[i] in old(ring) || fresh(ring[i])
    {
      ok := true;
      match cfg.format {
        case Text =>
        case Crumb =>
        case Json => ok := ObjectOpen();
        case Xml => BeginXml(declaration, root);
      }
    }

    /** `master_header` */
    method MasterHeader(rel: Release) returns (ok: bool)
      requires Valid() && NoNul(XmlRoot(rel))
      modifies this`last, this`current, this`indent, this`crumbList, this`ring, this`names, doc, ring
      ensures doc.buf == old(doc.buf) || fresh(doc.buf)
      ensures var r := Emission.MasterHeader(cfg, rel, old(View()));
              ok == r.Some? && (ok ==> Valid() && r == Some(View()))
      ensures ok ==> forall i :: 0 <= i < |ring| ==> ring[i] in old(ring) || fresh(ring[i])
    {
      ok := Begin(XML_DECLARATION, XmlRoot(rel));
    }

    /** `master_footer` */
    method MasterFooter() returns (ok: bool)
      requires Valid()
      modifies this`last, this`current, this`indent, this`crumbList, this`ring, this`names, doc, ring
      ensures doc.buf == old(doc.buf) || fresh(doc.buf)
      ensures var r := Emission.MasterFooter(cfg, old(View())); ok == r.Some? && (ok ==> Valid() && r == Some(View()))
      ensures ok ==> forall i :: 0 <= i < |ring| ==> ring[i] in old(ring) || fresh(ring[i])
    {
      ok := true;
      match cfg.format {
        case Text => Write("\n");
        case Crumb => Write("\n");
        case Json =>
          ok := ObjectClose();
          if ok {
            Write("\n");
          }
        case Xml => ok := EndXml("\n", XML_END);
      }
    }
  }

  method WriteNode(doc: PString, cfg: Config, list: Crumb, iter: Crumb, ghost ring: seq<Crumb>,
                   ghost names: seq<string>, ghost k: nat, ghost before: string)
    returns (next: Crumb)
    requires doc.Valid() && NoNul(cfg.crumbSeparator) && Names(list, ring, names) && 1 <= k < |ring| && iter == ring[k]
    requires doc.Text() == before + CrumbPrefix(cfg, names[..k - 1])
    modifies doc
    ensures doc.Valid() && doc.Text() == before + CrumbPrefix(cfg, names[..k])
    ensures doc.buf == old(doc.buf) || fresh(doc.buf)
    ensures next == if k + 1 < |ring| then ring[k + 1] else list
  {
    CrumbAt(list, ring, names, k);
    WriteCrumb(doc, cfg, iter.data.value, before, names, k - 1);
    next := iter.next;
  }

  /** The PR_LIST_FOREACH loop of `entry`. */
  method WriteRing(doc: PString, cfg: Config, list: Crumb, ghost ring: seq<Crumb>, ghost names: seq<string>)
    requires doc.Valid() && NoNul(cfg.crumbSeparator)
    requires Names(list, ring, names)
    modifies doc
    ensures doc.Valid() && doc.Text() == old(doc.Text()) + CrumbPrefix(cfg, names)
    ensures CrumbPrefix(cfg, names) == Path(cfg.crumbSeparator, names)
    ensures doc.buf == old(doc.buf) || fresh(doc.buf)
    ensures old(doc.len) <= doc.len
  {
    ghost var before, k := doc.Text(), 1;
    var iter := list.next;
    assert names[..0] == [] && before + "" == before;
    while iter != list
      invariant doc.Valid() && (doc.buf == old(doc.buf) || fresh(doc.buf)) && Names(list, ring, names)
      invariant 1 <= k <= |ring| && iter == (if k < |ring| then ring[k] else list)
      invariant doc.Text() == before + CrumbPrefix(cfg, names[..k - 1])
      decreases |ring| - k
    {
      iter := WriteNode(doc, cfg, list, iter, ring, names, k, before);
      k := k + 1;
    }
    assert names[..k - 1] == names;
    assert |before + CrumbPrefix(cfg, names)| >= |before|;
    PrefixIsPath(cfg, names);
  }

  method WriteCrumb(doc: PString, cfg: Config, crumb: string, ghost before: string, ghost names: seq<string>,
                    ghost k: nat)
    requires doc.Valid() && NoNul(cfg.crumbSeparator) && NoNul(crumb) && k < |names| && crumb == names[k]
    requires doc.Text() == before + CrumbPrefix(cfg, names[..k])
    modifies doc
    ensures doc.Valid() && doc.Text() == before + CrumbPrefix(cfg, names[..k + 1])
    ensures doc.buf == old(doc.buf) || fresh(doc.buf)
  {
    PrefixStep(cfg, names, k, before);
    doc.Wappendn(crumb + cfg.crumbSeparator);
  }

  lemma CrumbAt(list: Crumb, ring: seq<Crumb>, names: seq<string>, k: nat)
    requires Names(list, ring, names) && 1 <= k < |ring|
    ensures ring[k].data == Some(names[k - 1]) && NoNul(names[k - 1])
    ensures ring[k].next == if k + 1 < |ring| then ring[k + 1] else list
  {
  }

  lemma PrefixStep(cfg: Config, names: seq<string>, k: nat, before: string)
    requires k < |names|
    ensures before + CrumbPrefix(cfg, names[..k]) + (names[k] + cfg.crumbSeparator)
         == before + CrumbPrefix(cfg, names[..k + 1])
  {
    assert names[..k + 1][..k] == names[..k];
  }

  lemma LeadIsPlain(f: Format, last: Element, cur: Element)
    ensures var lead := LeadFor(f, last, cur);
            lead.Some? ==> NoNul(lead.value.separator) && (lead.value.shift > 0 ==> lead.value.separator != "")
  {
  }

  // ----- the switches of the three format functions; an arm that is not reached gives `None`

  /** `format_text_element` */
  method FormatTextElement(last: Element, current: Element) returns (lead: Option<Lead>)
    ensures lead == TextLead(last, current)
  {
    lead := None;
    match last {
      case EntryElement =>
        match current {
          case EntryElement | SectionOpen | ContainerOpen => lead := Some(Lead("\n", 0, true));
          case ContainerClose | SectionClose => lead := Some(Lead("\n", -1, true));
          case _ =>
        }
      case SectionOpen =>
        match current {
          case EntryElement | SectionOpen | ContainerOpen => lead := Some(Lead("\n", 1, true));
          case SectionClose => lead := Some(NOTHING);
          case _ =>
        }
      case SectionClose =>
        match current {
          case SectionClose | ContainerClose => lead := Some(Lead("\n", -1, true));
          case EntryElement | ContainerOpen | SectionOpen => lead := Some(Lead("\n", 0, true));
          case _ =>
        }
      case ContainerOpen =>
        match current {
          case EntryElement | SectionOpen | ContainerOpen => lead := Some(Lead("\n", 1, true));
          case ContainerClose => lead := Some(NOTHING);
          case _ =>
        }
      case ContainerClose =>
        match current {
          case SectionClose | ContainerClose => lead := Some(Lead("\n", -1, true));
          case SectionOpen | EntryElement | ContainerOpen => lead := Some(Lead("\n", 0, true));
          case _ =>
        }
      case NoElement =>
        match current {
          case EntryElement | ContainerOpen | SectionOpen | SectionClose | ContainerClose =>
            lead := Some(Lead("", 0, true));
          case ObjectOpen | ObjectClose => lead := Some(NOTHING);
          case NoElement =>
        }
      case _ =>
    }
  }

  /** `format_json_element` */
  method FormatJsonElement(last: Element, current: Element) returns (lead: Option<Lead>)
    ensures lead == JsonLead(last, current)
  {
    lead := None;
    match last {
      case EntryElement =>
        match current {
          case EntryElement | SectionOpen | ContainerOpen => lead := Some(Lead(",\n", 0, true));
          case SectionClose | ContainerClose | ObjectClose => lead := Some(Lead("\n", -1, true));
          case _ =>
        }
      case SectionOpen =>
        match current {
          case EntryElement | SectionOpen | ContainerOpen => lead := Some(Lead("\n", 1, true));
          case SectionClose | ObjectOpen => lead := Some(NOTHING);
          case _ =>
        }
      case SectionClose =>
        match current {
          case EntryElement | SectionOpen | ContainerOpen => lead := Some(Lead(",\n", 0, true));
          case ObjectOpen => lead := Some(NOTHING);
          case SectionClose | ContainerClose => lead := Some(Lead("\n", -1, true));
          case ObjectClose => lead := Some(Lead("\n", -1, true));
          case _ =>
        }
      case ContainerOpen =>
        match current {
          case EntryElement | ContainerOpen | SectionOpen | ObjectOpen => lead := Some(Lead("\n", 1, true));
          case ContainerClose => lead := Some(NOTHING);
          case _ =>
        }
      case ContainerClose =>
        match current {
          case EntryElement | SectionOpen | ObjectOpen | ContainerOpen => lead := Some(Lead(",\n", 0, true));
          case SectionClose | ContainerClose | ObjectClose => lead := Some(Lead("\n", -1, true));
          case _ =>
        }
      case ObjectOpen =>
        match current {
          case EntryElement | ContainerOpen | SectionOpen => lead := Some(Lead("\n", 1, true));
          case ObjectClose => lead := Some(NOTHING);
          case _ =>
        }
      case ObjectClose =>
        match current {
          case ContainerClose | SectionClose => lead := Some(Lead("\n", -1, true));
          case ObjectOpen | SectionOpen => lead := Some(Lead(",\n", 0, true));
          case _ =>
        }
      case NoElement =>
        match current {
          case NoElement =>
          case _ => lead := Some(Lead("", 0, true));
        }
    }
  }

  /** `format_xml_element` */
  method FormatXmlElement(last: Element, current: Element) returns (lead: Option<Lead>)
    ensures lead == XmlLead(last, current)
  {
    lead := None;
    match last {
      case EntryElement =>
        match current {
          case EntryElement | SectionOpen | ObjectOpen | ContainerOpen => lead := Some(Lead("\n", 0, true));
          case SectionClose | ContainerClose | ObjectClose => lead := Some(Lead("\n", -1, true));
          case _ =>
        }
      case SectionOpen =>
        match current {
          case EntryElement | SectionOpen | ContainerOpen => lead := Some(Lead("\n", 1, true));
          case SectionClose => lead := Some(Lead("\n", 0, true));
          case _ =>
        }
      case SectionClose =>
        match current {
          case SectionClose | ContainerClose => lead := Some(Lead("\n", -1, true));
          case ObjectClose => lead := Some(Lead("\n", 0, true));
          case SectionOpen | EntryElement | ContainerOpen => lead := Some(Lead("\n", 0, true));
          case _ =>
        }
      case ContainerOpen =>
        match current {
          case EntryElement | SectionOpen | ContainerOpen => lead := Some(Lead("\n", 1, true));
          case ContainerClose => lead := Some(Lead("\n", 0, true));
          case ObjectOpen => lead := Some(Lead("", 0, true));
          case _ =>
        }
      case ContainerClose =>
        match current {
          case SectionClose | ContainerClose | ObjectClose => lead := Some(Lead("\n", -1, true));
          case EntryElement | SectionOpen | ContainerOpen => lead := Some(Lead("\n", 0, true));
          case _ =>
        }
      case ObjectOpen =>
        match current {
          case EntryElement | SectionOpen => lead := Some(Lead("\n", 1, true));
          case ContainerOpen => lead := Some(Lead("\n", 1, true));
          case ObjectClose => lead := Some(NOTHING);
          case _ =>
        }
      case ObjectClose =>
        match current {
          case ObjectOpen | SectionClose => lead := Some(NOTHING);
          case ContainerClose | EntryElement => lead := Some(Lead("\n", -1, false));
          case _ =>
        }
      case NoElement =>
        match current {
          case NoElement =>
          case _ => lead := Some(Lead("", 0, true));
        }
    }
  }
}
