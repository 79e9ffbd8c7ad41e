/** `get_instance_name`: the display name of an instance, taken from its
    `Tags` list. */
module TagHelper {
  import opened Ec2Types

  const NameKey := "Name"
  const NotAvailable := "N/A"

  /** The scan `for tag in tags: if tag.get("Key") == "Name": return
      tag.get("Value", "N/A")`, falling through to "N/A". */
  function FirstNameTag(tags: seq<Tag>): (name: string)
  {
    if tags == [] then NotAvailable
    else if tags[0].key == Some(NameKey) then tags[0].value.GetOr(NotAvailable)
    else FirstNameTag(tags[1..])
  }

  /** `get_instance_name(instance.get("Tags"))`: an absent or empty tag list
      (`not tags`) gives "N/A" before the scan. */
  function InstanceName(tags: Option<seq<Tag>>): (name: string)
    ensures tags.None? || tags == Some([]) ==> name == NotAvailable
  {
    match tags
    case None => NotAvailable
    case Some(ts) => if ts == [] then NotAvailable else FirstNameTag(ts)
  }

  /** Any name other than "N/A" is the `Value` of a tag keyed "Name". */
  lemma {:induction false} NameComesFromTag(tags: Option<seq<Tag>>)
    ensures var name := InstanceName(tags);
      name == NotAvailable
      || exists k :: 0 <= k < |tags.value| && tags.value[k].key == Some(NameKey) && tags.value[k].value == Some(name)
  {
    if tags.Some? && tags.value != [] {
      FirstNameTagOrigin(tags.value);
    }
  }

  lemma {:induction false} FirstNameTagOrigin(tags: seq<Tag>)
    ensures FirstNameTag(tags) == NotAvailable
         || exists k :: 0 <= k < |tags| && tags[k].key == Some(NameKey) && tags[k].value == Some(FirstNameTag(tags))
  {
    if tags != [] && tags[0].key != Some(NameKey) {
      FirstNameTagOrigin(tags[1..]);
      if FirstNameTag(tags) != NotAvailable {
        var k :| 0 <= k < |tags[1..]| && tags[1..][k].key == Some(NameKey) && tags[1..][k].value == Some(FirstNameTag(tags));
        assert tags[k + 1] == tags[1..][k];
      }
    }
  }

  /** The first tag keyed "Name" decides the name, whatever follows it. */
  lemma {:induction false} FirstMatchWins(tags: seq<Tag>, k: nat)
    requires k < |tags| && tags[k].key == Some(NameKey)
    requires forall j :: 0 <= j < k ==> tags[j].key != Some(NameKey)
    ensures InstanceName(Some(tags)) == tags[k].value.GetOr(NotAvailable)
  {
    if k > 0 {
      FirstMatchWins(tags[1..], k - 1);
    }
  }

  /** Without a tag keyed "Name" the name is "N/A". */
  lemma {:induction false} NoNameTag(tags: seq<Tag>)
    requires forall j :: 0 <= j < |tags| ==> tags[j].key != Some(NameKey)
    ensures FirstNameTag(tags) == NotAvailable
  {
    if tags != [] {
      NoNameTag(tags[1..]);
    }
  }

  /** A "Name" tag without a `Value` gives "N/A" even if a later "Name" tag
      has one. */
  lemma NameTagWithoutValue(v: string)
    ensures InstanceName(Some([Tag(Some(NameKey), None), Tag(Some(NameKey), Some(v))])) == NotAvailable
  {
  }

  /** `[{Key: "Env", Value: "prod"}, {Key: "Name", Value: "web-1"}]` is named "web-1". */
  lemma NameAfterOtherTag()
    ensures InstanceName(Some([Tag(Some("Env"), Some("prod")), Tag(Some(NameKey), Some("web-1"))])) == "web-1"
  {
    FirstMatchWins([Tag(Some("Env"), Some("prod")), Tag(Some(NameKey), Some("web-1"))], 1);
  }
}
