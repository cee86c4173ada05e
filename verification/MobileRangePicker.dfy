/**
 * The prop computations of the mobile date-range picker hook: the locale-text
 * merge, the field defaults, whether the toolbar is hidden, and the
 * `aria-labelledby` the modal dialog's paper receives.
 */
module MobileRangePicker {
  import opened Wrappers
  import Text

  /** The static `fieldType` of the field slot. */
  datatype FieldType = SingleInput | MultiInput

  /** Locale texts by key; `None` is a key that is present with the value `undefined`. */
  type LocaleText = map<string, Option<string>>

  /** An opaque React ref object. */
  type InputRef = nat

  /** `{ ...contextLocaleText, ...localeText }`: the props' texts win key by key. */
  function MergeLocaleText(context: LocaleText, props: LocaleText): (r: LocaleText)
    ensures r.Keys == context.Keys + props.Keys
    ensures forall k :: k in props ==> r[k] == props[k]
    ensures forall k :: k in context && k !in props ==> r[k] == context[k]
  {
    context + props
  }

  /** `finalLocaleText[key]` is truthy: present, defined and not the empty string. */
  predicate HasText(text: LocaleText, key: string)
  {
    key in text && text[key].Some? && text[key].value != ""
  }

  /** `innerSlotProps?.toolbar?.hidden ?? false`. */
  function IsToolbarHidden(hidden: Option<bool>): (r: bool)
    ensures r <==> hidden == Some(true)
  {
    hidden.GetOr(false)
  }

  /** `(Field as any).fieldType ?? 'multi-input'`. */
  function FieldTypeOf(declared: Option<FieldType>): (r: FieldType)
    ensures declared.None? ==> r == MultiInput
    ensures declared.Some? ==> r == declared.value
  {
    declared.GetOr(MultiInput)
  }

  /** The props the hook adds to the field slot that depend on the field type and on `readOnly`. */
  datatype FieldAdditionalProps = FieldAdditionalProps(readOnly: bool, inputRef: Option<InputRef>, name: Option<string>)

  /** `readOnly: readOnly ?? true` and `...(fieldType === 'single-input' && { inputRef, name })`. */
  function FieldAdditional(fieldType: FieldType, readOnly: Option<bool>, inputRef: Option<InputRef>, name: Option<string>)
    : (r: FieldAdditionalProps)
    ensures r.readOnly <==> readOnly != Some(false)
    ensures fieldType == MultiInput ==> r.inputRef.None? && r.name.None?
    ensures fieldType == SingleInput ==> r.inputRef == inputRef && r.name == name
  {
    var passThrough := fieldType == SingleInput;
    FieldAdditionalProps(
      readOnly.GetOr(true),
      if passThrough then inputRef else None,
      if passThrough then name else None)
  }

  /** The ids that label the dialog when the toolbar is hidden, in the order they are pushed. */
  function HiddenToolbarLabelIds(labelId: string, fieldType: FieldType, text: LocaleText, fieldLabel: Option<string>)
    : seq<string>
  {
    if fieldType == MultiInput then
      (if HasText(text, "start") then [labelId + "-start-label"] else [])
      + (if HasText(text, "end") then [labelId + "-end-label"] else [])
    else if fieldLabel.Some? then [labelId + "-label"]
    else []
  }

  /** The value of `labelledById` once it is computed. */
  function LabelledBy(toolbarHidden: bool, labelId: string, fieldType: FieldType, text: LocaleText, fieldLabel: Option<string>)
    : Option<string>
  {
    if !toolbarHidden then Some(labelId)
    else
      var ids := HiddenToolbarLabelIds(labelId, fieldType, text, fieldLabel);
      if |ids| > 0 then Some(Text.JoinSpace(ids)) else None
  }

  /** The `labelledById` computation: push the ids that apply into `labels`, then join them. */
  method ComputeLabelledById(toolbarHidden: bool, labelId: string, fieldType: FieldType, text: LocaleText, fieldLabel: Option<string>)
    returns (labelledById: Option<string>)
    ensures labelledById == LabelledBy(toolbarHidden, labelId, fieldType, text, fieldLabel)
  {
    labelledById := Some(labelId);
    if toolbarHidden {
      var labels: seq<string> := [];
      if fieldType == MultiInput {
        if HasText(text, "start") {
          labels := labels + [labelId + "-start-label"];
        }
        if HasText(text, "end") {
          labels := labels + [labelId + "-end-label"];
        }
      } else if fieldLabel.Some? {
        labels := labels + [labelId + "-label"];
      }
      labelledById := if |labels| > 0 then Some(Text.JoinSpace(labels)) else None;
    }
  }

  /** With a visible toolbar the dialog is labelled by the toolbar title's own id. */
  lemma VisibleToolbarLabel(labelId: string, fieldType: FieldType, text: LocaleText, fieldLabel: Option<string>)
    ensures LabelledBy(false, labelId, fieldType, text, fieldLabel) == Some(labelId)
  {
  }

  /** Multi-input fields: the start id, then the end id, each only when its locale text is non-empty. */
  lemma MultiInputLabelIds(labelId: string, text: LocaleText, fieldLabel: Option<string>)
    ensures var ids := HiddenToolbarLabelIds(labelId, MultiInput, text, fieldLabel);
            && |ids| == (if HasText(text, "start") then 1 else 0) + (if HasText(text, "end") then 1 else 0)
            && (HasText(text, "start") ==> ids[0] == labelId + "-start-label")
            && (HasText(text, "end") ==> ids[|ids| - 1] == labelId + "-end-label")
  {
  }

  /** Other fields: at most the single `<labelId>-label`, present exactly when a label is given. */
  lemma SingleInputLabelIds(labelId: string, text: LocaleText, fieldLabel: Option<string>)
    ensures HiddenToolbarLabelIds(labelId, SingleInput, text, fieldLabel)
            == if fieldLabel.Some? then [labelId + "-label"] else []
  {
  }

  /** A hidden toolbar with nothing to point at leaves `aria-labelledby` undefined. */
  lemma HiddenToolbarWithoutIds(labelId: string, fieldType: FieldType, text: LocaleText, fieldLabel: Option<string>)
    ensures LabelledBy(true, labelId, fieldType, text, fieldLabel).None?
            <==> HiddenToolbarLabelIds(labelId, fieldType, text, fieldLabel) == []
  {
  }

  /**
   * When `labelId` holds no space, the joined `aria-labelledby` value splits
   * back into exactly the ids that apply, in order.
   */
  lemma {:induction false} LabelledByRoundTrip(labelId: string, fieldType: FieldType, text: LocaleText, fieldLabel: Option<string>)
    requires ' ' !in labelId
    requires LabelledBy(true, labelId, fieldType, text, fieldLabel).Some?
    ensures Text.SplitSpace(LabelledBy(true, labelId, fieldType, text, fieldLabel).value)
            == HiddenToolbarLabelIds(labelId, fieldType, text, fieldLabel)
  {
    var ids := HiddenToolbarLabelIds(labelId, fieldType, text, fieldLabel);
    assert forall k :: 0 <= k < |ids| ==> ' ' !in ids[k] by {
      assert ' ' !in labelId + "-start-label";
      assert ' ' !in labelId + "-end-label";
      assert ' ' !in labelId + "-label";
    }
    Text.SplitJoin(ids);
  }

  /** The attributes of the mobile paper slot, keyed by attribute name. */
  type PaperProps = map<string, Option<string>>

  /** `{ 'aria-labelledby': labelledById, ...innerSlotProps?.mobilePaper }`. */
  function MobilePaperProps(labelledById: Option<string>, user: PaperProps): (r: PaperProps)
    ensures r.Keys == user.Keys + {"aria-labelledby"}
    ensures r["aria-labelledby"] == if "aria-labelledby" in user then user["aria-labelledby"] else labelledById
    ensures forall k :: k in user ==> r[k] == user[k]
  {
    map["aria-labelledby" := labelledById] + user
  }

  /** Unless the user overrides it, a visible toolbar's title id labels the dialog paper. */
  lemma PaperLabelledByTitle(labelId: string, fieldType: FieldType, text: LocaleText, fieldLabel: Option<string>, user: PaperProps)
    requires "aria-labelledby" !in user
    ensures MobilePaperProps(LabelledBy(false, labelId, fieldType, text, fieldLabel), user)["aria-labelledby"]
            == Some(labelId)
  {
  }
}
