/** fborm.objects: the typemaps of the FogBugz objects. Each dict literal is a Schema
    whose fields are listed in the order the literal writes them. */
module Objects {
  import opened Wrappers
  import opened Types
  import opened Engine
  import Parse

  /** `dict(k1=c1, ..., **base)`: the extra fields, then those of base; Python raises
      TypeError when a keyword is also a key of base. */
  function DictWith(extra: seq<Field>, base: Schema): (r: Result<Schema, Error>)
    ensures r.Ok? <==> forall i :: 0 <= i < |extra| ==> extra[i].name !in Names(base)
    ensures r.Ok? ==> r.value.fields == extra + base.fields
    ensures r.Err? ==> r.error.DuplicateKeyword? && r.error.key in Names(base)
  {
    if extra == [] then Ok(base)
    else if extra[0].name in Names(base) then Err(DuplicateKeyword(extra[0].name))
    else
      var rest := DictWith(extra[1..], base);
      assert forall i :: 1 <= i < |extra| ==> extra[1..][i - 1] == extra[i];
      if rest.Err? then Err(rest.error)
      else
        assert extra == [extra[0]] + extra[1..];
        Ok(Schema([extra[0]] + rest.value.fields))
  }

  const fbError := Schema([
    Field("sError", FbSelf),
    Field("code", FbAttr(FbInt))])

  const fbFilter := Schema([
    Field("sFilterName", FbSelf),
    Field("type", FbAttr(FbString)),
    Field("sFilter", FbAttr(FbString)),
    Field("status", FbAttr(FbString))])

  const fbTag := Schema([
    Field("ixTag", FbInt),
    Field("sTag", FbString),
    Field("cTagUses", FbInt)])

  const fbPerson := Schema([
    Field("ixPerson", FbInt),
    Field("sFullName", FbString),
    Field("sEmail", FbString),
    Field("sPhone", FbString),
    Field("fAdministrator", FbBool),
    Field("fCommunity", FbBool),
    Field("fVirtual", FbBool),
    Field("fDeleted", FbBool),
    Field("fNotify", FbBool),
    Field("sHomepage", FbString),
    Field("sLocale", FbString),
    Field("sLanguage", FbString),
    Field("sTimeZoneKey", FbString),
    Field("sLDAPUid", FbString),
    Field("dtLastActivity", FbDateTime),
    Field("fRecurseBugChildren", FbBool),
    Field("fPaletteExpanded", FbBool),
    Field("ixBugWorkingOn", FbInt),
    Field("sFrom", FbString)])

  const fbProject := Schema([
    Field("ixProject", FbInt),
    Field("sProject", FbString),
    Field("ixPersonOwner", FbInt),
    Field("sPersonOwner", FbString),
    Field("sEmail", FbString),
    Field("sPhone", FbString),
    Field("fInbox", FbBool),
    Field("ixWorkflow", FbInt),
    Field("fDeleted", FbBool)])

  const fbCategory := Schema([
    Field("ixCategory", FbInt),
    Field("sCategory", FbString),
    Field("sPlural", FbString),
    Field("ixStatusDefault", FbInt),
    Field("fIsScheduleItem", FbBool),
    Field("fDeleted", FbBool),
    Field("iOrder", FbInt),
    Field("nIconType", FbInt),
    Field("ixAttachmentIcon", FbInt),
    Field("ixStatusDefaultActive", FbInt)])

  const fbPriority := Schema([
    Field("ixCategory", FbInt),
    Field("fDefault", FbBool),
    Field("sPriority", FbString)])

  const fbStatus := Schema([
    Field("ixStatus", FbInt),
    Field("sStatus", FbString),
    Field("ixCategory", FbInt),
    Field("fWorkDone", FbBool),
    Field("fResolved", FbBool),
    Field("fDuplicate", FbBool),
    Field("fDeleted", FbBool),
    Field("iOrder", FbInt)])

  const fbArea := Schema([
    Field("ixArea", FbInt),
    Field("sArea", FbString),
    Field("ixProject", FbInt),
    Field("sProject", FbString),
    Field("ixPersonOwner", FbInt),
    Field("sPersonOwner", FbString),
    Field("nType", FbInt),
    Field("cDoc", FbInt)])

  const fbAttachment := Schema([
    Field("sFilename", FbString),
    Field("sURL", FbString)])

  /** A string read only when the record's fEmail holds a true value. */
  const fbstring_fEmail := FbConditional(FbString, [Condition("fEmail", Truthy)])

  const fbBugMiniEvent := Schema([
    Field("ixBugEvent", FbInt),
    Field("ixBug", FbAttr(FbInt)),
    Field("evt", FbInt),
    Field("sVerb", FbString),
    Field("ixPerson", FbInt),
    Field("sPerson", FbString),
    Field("ixPersonAssignedTo", FbInt),
    Field("dt", FbDateTime),
    Field("fHTML", FbBool),
    Field("sFormat", FbString),
    Field("sChanges", FbString),
    Field("evtDescription", FbString),
    Field("rgAttachments", FbListOfSchema(fbAttachment)),
    Field("fEmail", FbBool),
    Field("fExternal", FbBool),
    Field("sFrom", fbstring_fEmail),
    Field("sTo", fbstring_fEmail),
    Field("sBCC", fbstring_fEmail),
    Field("sReplyTo", fbstring_fEmail),
    Field("sSubject", fbstring_fEmail),
    Field("sDate", fbstring_fEmail),
    Field("sBody", fbstring_fEmail),
    Field("sBodyHTML", fbstring_fEmail)])

  const fbBugEvent := DictWith([
    Field("s", FbString),
    Field("sHTML", FbString)], fbBugMiniEvent)

  const fbBug_ixBug := Schema([Field("ixBug", FbInt)])

  const fbBug := Schema([
    Field("ixBug", FbInt),
    Field("ixBugParent", FbInt),
    Field("ixBugChildren", Bare(Undefined("fbixBugChildren"))),
    Field("sTitle", FbString),
    Field("ixProject", FbInt),
    Field("sProject", FbString),
    Field("ixArea", FbInt),
    Field("sArea", FbString),
    Field("ixCategory", FbInt),
    Field("sCategory", FbString),
    Field("ixPriority", FbInt),
    Field("sPriority", FbString),
    Field("ixPersonAssignedTo", FbInt),
    Field("sPersonAssignedTo", FbString)])

  const fbBug_withLatestEvent :=
    match fbBugEvent
    case Ok(e) => DictWith([Field("latestEvent", FbLatestEvent(e))], fbBug)
    case Err(x) => Err(x)

  const fbBug_withEvents :=
    match fbBugEvent
    case Ok(e) => DictWith([Field("events", FbEvents(e))], fbBug)
    case Err(x) => Err(x)

  const fbBug_withMiniEvents := DictWith([Field("minievents", FbMiniEvents(fbBugMiniEvent))], fbBug)

  const fbFixFor := Schema([
    Field("ixFixFor", FbInt),
    Field("sFixFor", FbString),
    Field("ixProject", FbInt),
    Field("sProject", FbString),
    Field("fDeleted", FbCol(FbBool, None, None, false, true, Some("fAssignable"), None)),
    Field("fReallyDeleted", FbBool),
    Field("dt", FbCol(FbDateTime, None, None, false, true, Some("dtRelease"), None)),
    Field("dtStart", FbDateTime),
    Field("sStartNote", FbString),
    Field("setixForForDependency", FbCol(FbListOfCallable(FbInt), None, None, false, false, None, None))])

  /** An alias of fbFixFor. */
  const fbMilestone := fbFixFor

  // ---------------------------------------------------------------- properties

  /** The names of the fields in fs. */
  function FieldNames(fs: seq<Field>): (r: set<string>)
    ensures forall k :: k in r <==> exists i :: 0 <= i < |fs| && fs[i].name == k
  {
    set i | 0 <= i < |fs| :: fs[i].name
  }

  /** Merging with keywords the base lacks succeeds. */
  lemma {:induction false} DictWithSucceeds(extra: seq<Field>, base: Schema)
    requires forall i :: 0 <= i < |extra| ==> extra[i].name !in Names(base)
    ensures DictWith(extra, base).Ok?
  {
  }

  /** The keys of a concatenation of field lists. */
  lemma {:induction false} NamesOfConcat(extra: seq<Field>, base: Schema)
    ensures Names(Schema(extra + base.fields)) == FieldNames(extra) + Names(base)
  {
    var fs := extra + base.fields;
    forall k | k in Names(base) ensures k in Names(Schema(fs)) {
      var i :| 0 <= i < |base.fields| && base.fields[i].name == k;
      assert fs[|extra| + i] == base.fields[i];
    }
    forall k | k in FieldNames(extra) ensures k in Names(Schema(fs)) {
      var i :| 0 <= i < |extra| && extra[i].name == k;
      assert fs[i] == extra[i];
    }
    forall k | k in Names(Schema(fs)) ensures k in FieldNames(extra) + Names(base) {
      var i :| 0 <= i < |fs| && fs[i].name == k;
      if i < |extra| {
        assert fs[i] == extra[i];
      } else {
        assert fs[i] == base.fields[i - |extra|];
      }
    }
  }

  /** Merging with keywords the base lacks succeeds, and the result has the keys of both. */
  lemma {:induction false} DictWithNames(extra: seq<Field>, base: Schema)
    requires forall i :: 0 <= i < |extra| ==> extra[i].name !in Names(base)
    ensures DictWith(extra, base).Ok?
    ensures Names(DictWith(extra, base).value) == FieldNames(extra) + Names(base)
  {
    DictWithSucceeds(extra, base);
    NamesOfConcat(extra, base);
  }

  /** fbBugEvent is fbBugMiniEvent with the keys `s` and `sHTML` added. */
  lemma BugEventKeys()
    ensures fbBugEvent.Ok?
    ensures Names(fbBugEvent.value) == Names(fbBugMiniEvent) + {"s", "sHTML"}
  {
    var extra := [Field("s", FbString), Field("sHTML", FbString)];
    assert "s" !in Names(fbBugMiniEvent) && "sHTML" !in Names(fbBugMiniEvent);
    DictWithNames(extra, fbBugMiniEvent);
    assert FieldNames(extra) == {"s", "sHTML"};
  }

  /** Every field of fbFilter is an attribute reader, so keys2cols asks for no column. */
  lemma FilterRequestsNoColumn(nm: NameMap)
    ensures Parse.Keys2Cols(fbFilter, nm) == ""
  {
    Parse.Keys2ColsOfAttributes(fbFilter, nm);
  }

  /** fbBug_withLatestEvent is fbBug with one read-only field, latestEvent, added. */
  lemma BugWithLatestEventKeys()
    ensures fbBug_withLatestEvent.Ok?
    ensures Names(fbBug_withLatestEvent.value) == Names(fbBug) + {"latestEvent"}
    ensures fbBug_withLatestEvent.value.fields[0].name == "latestEvent"
    ensures !fbBug_withLatestEvent.value.fields[0].desc.settable
  {
    BugEventKeys();
    var f := Field("latestEvent", FbLatestEvent(fbBugEvent.value));
    assert fbBug_withLatestEvent == DictWith([f], fbBug);
    BugLacksEventKeys();
    AddField(f, fbBug);
  }

  /** fbBug_withEvents is fbBug with one read-only field, events, added. */
  lemma BugWithEventsKeys()
    ensures fbBug_withEvents.Ok?
    ensures Names(fbBug_withEvents.value) == Names(fbBug) + {"events"}
    ensures fbBug_withEvents.value.fields[0].name == "events"
    ensures !fbBug_withEvents.value.fields[0].desc.settable
  {
    BugEventKeys();
    var f := Field("events", FbEvents(fbBugEvent.value));
    assert fbBug_withEvents == DictWith([f], fbBug);
    BugLacksEventKeys();
    AddField(f, fbBug);
  }

  /** fbBug_withMiniEvents is fbBug with one read-only field, minievents, added. */
  lemma BugWithMiniEventsKeys()
    ensures fbBug_withMiniEvents.Ok?
    ensures Names(fbBug_withMiniEvents.value) == Names(fbBug) + {"minievents"}
    ensures fbBug_withMiniEvents.value.fields[0].name == "minievents"
    ensures !fbBug_withMiniEvents.value.fields[0].desc.settable
  {
    BugLacksEventKeys();
    AddField(Field("minievents", FbMiniEvents(fbBugMiniEvent)), fbBug);
  }

  /** fbBug has none of the keys its extended variants add. */
  lemma BugLacksEventKeys()
    ensures "latestEvent" !in Names(fbBug) && "events" !in Names(fbBug) && "minievents" !in Names(fbBug)
  {
  }

  /** Adding one keyword the base lacks puts it first and adds its name to the keys. */
  lemma AddField(f: Field, base: Schema)
    requires f.name !in Names(base)
    ensures DictWith([f], base) == Ok(Schema([f] + base.fields))
    ensures Names(DictWith([f], base).value) == Names(base) + {f.name}
  {
    DictWithNames([f], base);
    assert FieldNames([f]) == {f.name};
  }

  /** fbBug_ixBug holds the single key ixBug. */
  lemma BugIxBugKeys()
    ensures Names(fbBug_ixBug) == {"ixBug"}
  {
    assert fbBug_ixBug.fields[0].name == "ixBug";
  }

  /** fbMilestone is fbFixFor under another name. */
  lemma MilestoneIsFixFor()
    ensures fbMilestone == fbFixFor
  {
  }

  /** The typemap's get finds the first field with the name. */
  lemma {:induction false} LookupAt(fs: seq<Field>, k: string, j: nat)
    requires j < |fs| && fs[j].name == k && forall i :: 0 <= i < j ==> fs[i].name != k
    ensures Lookup(fs, k) == Some(fs[j].desc)
  {
    if j > 0 {
      LookupAt(fs[1..], k, j - 1);
    }
  }

  /** fbargs on a fbFixFor record writes fDeleted as fAssignable and dt as dtRelease, and
      never writes setixForForDependency. */
  lemma FixForArguments(nm: NameMap)
    ensures Parse.Writable(fbFixFor, "fDeleted") && Parse.ArgName(fbFixFor, nm, "fDeleted") == Remap(nm, "fAssignable")
    ensures Parse.Writable(fbFixFor, "dt") && Parse.ArgName(fbFixFor, nm, "dt") == Remap(nm, "dtRelease")
    ensures !Parse.Writable(fbFixFor, "setixForForDependency")
  {
    FixForLookups();
  }

  lemma FixForLookups()
    ensures Lookup(fbFixFor.fields, "fDeleted") == Some(FbCol(FbBool, None, None, false, true, Some("fAssignable"), None))
    ensures Lookup(fbFixFor.fields, "dt") == Some(FbCol(FbDateTime, None, None, false, true, Some("dtRelease"), None))
    ensures Lookup(fbFixFor.fields, "setixForForDependency") == Some(FbCol(FbListOfCallable(FbInt), None, None, false, false, None, None))
  {
    FixForLookup(4, "fDeleted");
    FixForLookup(6, "dt");
    FixForLookup(9, "setixForForDependency");
  }

  lemma FixForLookup(j: nat, k: string)
    requires (j == 4 && k == "fDeleted") || (j == 6 && k == "dt") || (j == 9 && k == "setixForForDependency")
    ensures Lookup(fbFixFor.fields, k) == Some(fbFixFor.fields[j].desc)
  {
    assert fbFixFor.fields[j].name == k;
    assert forall i :: 0 <= i < j ==> fbFixFor.fields[i].name != k;
    LookupAt(fbFixFor.fields, k, j);
  }

  /** The names of fields a..b-1 are pairwise distinct. */
  predicate DistinctIn(fs: seq<Field>, a: nat, b: nat)
    requires b <= |fs|
  {
    forall i, j :: a <= i < j < b ==> fs[i].name != fs[j].name
  }

  /** No name of fields a..b-1 is the name of one of fields c..d-1. */
  predicate Apart(fs: seq<Field>, a: nat, b: nat, c: nat, d: nat)
    requires b <= |fs| && d <= |fs|
  {
    forall i, j :: a <= i < b && c <= j < d ==> fs[i].name != fs[j].name
  }

  lemma MiniEventFirstHalfDistinct()
    ensures DistinctIn(fbBugMiniEvent.fields, 0, 12)
  {
  }

  lemma MiniEventSecondHalfDistinct()
    ensures DistinctIn(fbBugMiniEvent.fields, 12, 23)
  {
  }

  lemma MiniEventHalvesApart()
    ensures Apart(fbBugMiniEvent.fields, 0, 12, 12, 23)
  {
  }

  /** Every typemap has distinct keys, as a dict does. */
  lemma MiniEventWellFormed()
    ensures WellFormed(fbBugMiniEvent)
  {
    MiniEventFirstHalfDistinct();
    MiniEventSecondHalfDistinct();
    MiniEventHalvesApart();
  }

  /** A field of the first pass that is not ignored is stored by it. */
  lemma {:induction false} FirstPassStores(fs: seq<Field>, j: nat)
    requires j < |fs| && !fs[j].desc.takesData && !fs[j].desc.ignore
    ensures fs[j].name in StoredNames(Pass(fs, false))
  {
    PassComplete(fs, false);
    var p := Pass(fs, false);
    assert fs[j] in p;
    var k :| 0 <= k < |p| && p[k] == fs[j];
    StoredNamesMember(p, fs[j].name);
  }

  /** fbstring_fEmail: a deferred string converter with the single condition that
      fEmail holds a true value. */
  lemma EmailDescriptor()
    ensures fbstring_fEmail.conv == Conditional(FbString, [Condition("fEmail", Truthy)])
    ensures fbstring_fEmail.takesData && !fbstring_fEmail.takesMap
    ensures !fbstring_fEmail.attrib && !fbstring_fEmail.ignore && fbstring_fEmail.resname.None?
  {
  }

  lemma {:induction false} EmailCheck(conditions: seq<Condition>, m: Fields)
    requires conditions == [Condition("fEmail", Truthy)] && "fEmail" in m
    ensures (forall c :: c in conditions ==> c.name in m && c.check(m[c.name])) <==> Truthy(m["fEmail"])
  {
    var onEmail := Condition("fEmail", Truthy);
    assert onEmail in conditions;
    assert forall c :: c in conditions ==> c == onEmail;
  }

  /** A field read by fbstring_fEmail is None when the record's fEmail field, a plain bool
      field of the same typemap, is false, and otherwise the string under its own name. */
  lemma {:induction false} EmailConditional(s: Schema, n: Node, nm: NameMap, i: nat, j: nat)
    requires WellFormed(s) && i < |s.fields| && j < |s.fields|
    requires s.fields[i].desc == fbstring_fEmail && s.fields[j] == Field("fEmail", FbBool)
    requires ExtractSpec(s, n, nm).Ok?
    ensures var m := ExtractSpec(s, n, nm).value;
            var name := s.fields[i].name;
            var found := FindEither(n, Remap(nm, name));
            && "fEmail" in m && name in m && found.Ok?
            && (!Truthy(m["fEmail"]) ==> m[name] == Null)
            && (Truthy(m["fEmail"]) ==> m[name] == ConvertString(found.value))
  {
    FirstPassStores(s.fields, j);
    EmailDescriptor();
    ConditionalSeesFirstPass(s, n, nm, i);
    var m := ExtractSpec(s, n, nm).value;
    EmailCheck(fbstring_fEmail.conv.conditions, m);
    ScalarCalls(FindEither(n, Remap(nm, s.fields[i].name)).value);
  }

  /** The fEmail-conditional fields of a mini event (sFrom through sBodyHTML) are None
      when the event's fEmail is false, and otherwise the string under their own name:
      fEmail is a plain bool field, read in the first pass. */
  lemma EmailFieldsFollowFEmail(n: Node, nm: NameMap, i: nat)
    requires 15 <= i < 23
    requires ExtractSpec(fbBugMiniEvent, n, nm).Ok?
    ensures var m := ExtractSpec(fbBugMiniEvent, n, nm).value;
            var name := fbBugMiniEvent.fields[i].name;
            var found := FindEither(n, Remap(nm, name));
            && "fEmail" in m && name in m && found.Ok?
            && (!Truthy(m["fEmail"]) ==> m[name] == Null)
            && (Truthy(m["fEmail"]) ==> m[name] == ConvertString(found.value))
  {
    MiniEventWellFormed();
    MiniEventEmailFields(i);
    EmailConditional(fbBugMiniEvent, n, nm, i, 13);
  }

  /** _convert looks the element up before an fbconditional's conditions are checked, so
      an event without, say, an sFrom element fails to extract even when fEmail is false:
      the e-mail fields are never left out as None for want of their element. */
  lemma EmailElementRequired(n: Node, nm: NameMap, i: nat)
    requires 15 <= i < 23 && n.Element?
    requires !Occurs(n.children, Remap(nm, fbBugMiniEvent.fields[i].name))
    requires !Occurs(n.children, Lower(Remap(nm, fbBugMiniEvent.fields[i].name)))
    ensures ExtractSpec(fbBugMiniEvent, n, nm).Err?
  {
    MiniEventWellFormed();
    MiniEventEmailFields(i);
    EmailDescriptor();
    ExtractFailsOnMissingElement(fbBugMiniEvent, n, nm, i);
  }

  /** fbBugMiniEvent as objects.py writes it: rgAttachments is `fblistof(fbAttachment)`,
      whose converter names the extract_all that types.py never imports. */
  const fbBugMiniEventAsWritten :=
    Schema(fbBugMiniEvent.fields[12 := Field("rgAttachments", FbListOfAsWritten(DictArg(fbAttachment)).value)])

  /** Replacing one field's converter keeps the names distinct. */
  lemma MiniEventAsWrittenWellFormed()
    ensures WellFormed(fbBugMiniEventAsWritten)
  {
    var fs := fbBugMiniEventAsWritten.fields;
    MiniEventWellFormed();
    assert forall k :: 0 <= k < |fs| ==> fs[k].name == fbBugMiniEvent.fields[k].name;
  }

  /** As written, every mini event (and so every event, which extends it) fails to
      extract: the attachments field fails whether or not its element is there. */
  lemma MiniEventAsWrittenFails(n: Node, nm: NameMap)
    ensures ExtractSpec(fbBugMiniEventAsWritten, n, nm).Err?
  {
    MiniEventAsWrittenWellFormed();
    var f := fbBugMiniEventAsWritten.fields[12];
    forall rec ensures ConvertField(f, n, rec, nm).Err? {
      ConvertFieldElement(f, n, rec, nm);
      var found := FindEither(n, Remap(nm, ReadName(f)));
      if found.Ok? {
        ListOfSchemaAsWrittenFails(fbAttachment, found.value, nm);
      }
    }
    ExtractFailsOnFailingField(fbBugMiniEventAsWritten, n, nm, 12);
  }

  /** Where fEmail and the fields that depend on it sit in fbBugMiniEvent. */
  lemma MiniEventEmailFields(i: nat)
    requires 15 <= i < 23
    ensures fbBugMiniEvent.fields[13] == Field("fEmail", FbBool)
    ensures fbBugMiniEvent.fields[i].desc == fbstring_fEmail
  {
    var fs := fbBugMiniEvent.fields;
    if i < 19 {
      assert fs[15].desc == fs[16].desc == fs[17].desc == fs[18].desc == fbstring_fEmail;
    } else {
      assert fs[19].desc == fs[20].desc == fs[21].desc == fs[22].desc == fbstring_fEmail;
    }
  }
}
