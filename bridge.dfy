/** The native module RNOneSignal (RNOneSignal.java): the fields it updates
    in place and the operations that read or write them. The SDK and the
    React Native bridge are not modelled; what the module hands to them
    (SDK initialisation, callback invocations, posted notifications) is
    recorded in ghost logs. */
module Bridge {
  import opened Wrappers
  import opened Json
  import ColdStart
  import TagSlot
  import Notification

  /** A JavaScript callback passed over the bridge; only its identity matters. */
  datatype Callback = Callback(id: nat)

  /** An Android context: the current activity or the application context. */
  datatype Context = Context(id: nat)

  /** The SDK type the module announces before initialising the SDK. */
  const SdkType := "react"

  class RNOneSignal {
    var oneSignalInitDone: bool
    var hasSetRequiresPrivacyConsent: bool
    var waitingForUserPrivacyConsent: bool

    /** Cold-start buffers: an opened notification and an in-app message
        click that arrived before the application was ready for them, as the
        JSON objects the callbacks would receive. */
    var coldStartNotificationResult: Option<Object>
    var inAppMessageActionResult: Option<Object>
    var hasSetNotificationOpenedHandler: bool
    var hasSetInAppClickedHandler: bool

    var pendingGetTagsCallback: Option<Callback>
    var pendingGetUserDeviceCallback: Option<Callback>
    var inAppMessageClickedCallback: Option<Callback>
    var notificationOpenedCallback: Option<Callback>

    /** The SDK's static sdkType field, as far as this module sets it. */
    ghost var sdkType: Option<string>
    /** The contexts passed to OneSignal.initWithContext, in order. */
    ghost var sdkInitializations: seq<Context>
    /** Invocations of the notification-opened callback. */
    ghost var openedDeliveries: seq<ColdStart.Delivery<Object, Callback>>
    /** Invocations of the in-app-message-clicked callback. */
    ghost var clickedDeliveries: seq<ColdStart.Delivery<Object, Callback>>
    /** Invocations of a getTags callback. */
    ghost var tagsDeliveries: seq<TagSlot.Delivery<Object, Callback>>
    /** Notifications handed to OneSignal.postNotification, in order. */
    ghost var postedNotifications: seq<Object>

    /** The notification-opened handler kind as a cold-start channel. */
    ghost function OpenedChannel(): ColdStart.Channel<Object, Callback>
      reads this
    {
      ColdStart.Channel(hasSetNotificationOpenedHandler, coldStartNotificationResult, notificationOpenedCallback)
    }

    /** The in-app-message-clicked handler kind as a cold-start channel. */
    ghost function ClickedChannel(): ColdStart.Channel<Object, Callback>
      reads this
    {
      ColdStart.Channel(hasSetInAppClickedHandler, inAppMessageActionResult, inAppMessageClickedCallback)
    }

    /** The notification-opened channel with the invocations made so far. */
    ghost function Opened(): ColdStart.After<Object, Callback>
      reads this
    {
      ColdStart.After(OpenedChannel(), openedDeliveries)
    }

    /** The in-app-message-clicked channel with the invocations made so far. */
    ghost function Clicked(): ColdStart.After<Object, Callback>
      reads this
    {
      ColdStart.After(ClickedChannel(), clickedDeliveries)
    }

    /** The module's invariant: the SDK is initialised once, exactly when
        the latch is set; a handler kind that is not ready has invoked no
        callback, and one that is ready buffers nothing; the module only
        waits for consent when consent is required. */
    ghost predicate Valid()
      reads this
    {
      && (oneSignalInitDone <==> |sdkInitializations| == 1)
      && |sdkInitializations| <= 1
      && (oneSignalInitDone <==> sdkType == Some(SdkType))
      && (hasSetNotificationOpenedHandler ==> coldStartNotificationResult.None?)
      && (hasSetInAppClickedHandler ==> inAppMessageActionResult.None?)
      && (!hasSetNotificationOpenedHandler ==> openedDeliveries == [])
      && (!hasSetInAppClickedHandler ==> clickedDeliveries == [])
      && (waitingForUserPrivacyConsent ==> hasSetRequiresPrivacyConsent)
    }

    /** Java's field defaults: every flag false, every reference null. */
    constructor ()
      ensures Valid()
      ensures !oneSignalInitDone && !hasSetRequiresPrivacyConsent && !waitingForUserPrivacyConsent
      ensures OpenedChannel() == ColdStart.Initial() && ClickedChannel() == ColdStart.Initial()
      ensures pendingGetTagsCallback.None? && pendingGetUserDeviceCallback.None?
      ensures sdkType.None? && sdkInitializations == [] && postedNotifications == []
      ensures openedDeliveries == [] && clickedDeliveries == [] && tagsDeliveries == []
    {
      oneSignalInitDone := false;
      hasSetRequiresPrivacyConsent := false;
      waitingForUserPrivacyConsent := false;
      coldStartNotificationResult := None;
      inAppMessageActionResult := None;
      hasSetNotificationOpenedHandler := false;
      hasSetInAppClickedHandler := false;
      pendingGetTagsCallback := None;
      pendingGetUserDeviceCallback := None;
      inAppMessageClickedCallback := None;
      notificationOpenedCallback := None;
      sdkType := None;
      sdkInitializations := [];
      openedDeliveries := [];
      clickedDeliveries := [];
      tagsDeliveries := [];
      postedNotifications := [];
    }

    /** `init(appId)`: initialises the SDK once, with the current activity
        or, when there is none, the application context; a second call
        changes nothing. The first call starts waiting for privacy consent
        when consent is required. The app id is not used. */
    method Init(appId: string, currentActivity: Option<Context>, applicationContext: Context)
      requires Valid()
      modifies this`oneSignalInitDone, this`waitingForUserPrivacyConsent, this`sdkType,
               this`sdkInitializations
      ensures Valid()
      ensures oneSignalInitDone
      ensures old(oneSignalInitDone) ==>
                sdkInitializations == old(sdkInitializations)
                && waitingForUserPrivacyConsent == old(waitingForUserPrivacyConsent)
                && sdkType == old(sdkType)
      ensures !old(oneSignalInitDone) ==>
                sdkInitializations == [if currentActivity.Some? then currentActivity.value else applicationContext]
      ensures !old(oneSignalInitDone) ==>
                waitingForUserPrivacyConsent == (hasSetRequiresPrivacyConsent || old(waitingForUserPrivacyConsent))
    {
      var context := currentActivity;
      if oneSignalInitDone {
        return;
      }
      oneSignalInitDone := true;
      sdkType := Some(SdkType);
      if context.None? {
        context := Some(applicationContext);
      }
      sdkInitializations := sdkInitializations + [context.value];
      if hasSetRequiresPrivacyConsent {
        waitingForUserPrivacyConsent := true;
      }
    }

    /** `getTags(callback)`: the callback is stored only when no earlier
        one is pending (a later one is dropped). The request to the SDK for
        the tags is not modelled; its result handler is TagsAvailable. */
    method GetTags(callback: Callback)
      requires Valid()
      modifies this`pendingGetTagsCallback
      ensures Valid()
      ensures pendingGetTagsCallback ==
                TagSlot.Step<Object, Callback>(old(pendingGetTagsCallback), TagSlot.GetTags(callback)).pending
      ensures old(pendingGetTagsCallback).Some? ==> pendingGetTagsCallback == old(pendingGetTagsCallback)
      ensures old(pendingGetTagsCallback).None? ==> pendingGetTagsCallback == Some(callback)
    {
      if pendingGetTagsCallback.None? {
        pendingGetTagsCallback := Some(callback);
      }
    }

    /** `tagsAvailable(tags)` of a result handler given to the SDK by
        getTags, however often the SDK calls it: the pending callback, if
        any, is invoked with the tags, and the slot is emptied either way. */
    method TagsAvailable(tags: Object)
      requires Valid()
      modifies this`pendingGetTagsCallback, this`tagsDeliveries
      ensures Valid()
      ensures pendingGetTagsCallback ==
                TagSlot.Step(old(pendingGetTagsCallback), TagSlot.TagsAvailable(tags)).pending
      ensures tagsDeliveries ==
                old(tagsDeliveries) + TagSlot.Step(old(pendingGetTagsCallback), TagSlot.TagsAvailable(tags)).delivered
      ensures pendingGetTagsCallback.None?
      ensures old(pendingGetTagsCallback).Some? ==>
                tagsDeliveries == old(tagsDeliveries) + [TagSlot.Delivery(old(pendingGetTagsCallback).value, tags)]
      ensures old(pendingGetTagsCallback).None? ==> tagsDeliveries == old(tagsDeliveries)
    {
      if pendingGetTagsCallback.Some? {
        tagsDeliveries := tagsDeliveries + [TagSlot.Delivery(pendingGetTagsCallback.value, tags)];
      }
      pendingGetTagsCallback := None;
    }

    /** `getUserDevice(callback)`, its slot only: the callback is stored
        only when the slot is empty, and the slot is never emptied. */
    method GetUserDevice(callback: Callback)
      requires Valid()
      modifies this`pendingGetUserDeviceCallback
      ensures Valid()
      ensures pendingGetUserDeviceCallback.Some?
      ensures old(pendingGetUserDeviceCallback).Some? ==>
                pendingGetUserDeviceCallback == old(pendingGetUserDeviceCallback)
      ensures old(pendingGetUserDeviceCallback).None? ==> pendingGetUserDeviceCallback == Some(callback)
    {
      if pendingGetUserDeviceCallback.None? {
        pendingGetUserDeviceCallback := Some(callback);
      }
    }

    /** `postNotification(contents, data, playerId, otherParameters)`: the
        assembled notification is handed to the SDK, or nothing is when a
        JSONException is caught. */
    method PostNotification(parse: Parser, contents: string, data: Option<string>,
                            playerId: Option<string>, otherParameters: Option<string>)
      requires Valid()
      modifies this`postedNotifications
      ensures Valid()
      ensures var built := Notification.Build(parse, contents, data, playerId, otherParameters);
              postedNotifications == old(postedNotifications) + if built.Some? then [built.value] else []
    {
      var notification := Notification.Assemble(parse, contents, data, playerId, otherParameters);
      if notification.Some? {
        postedNotifications := postedNotifications + [notification.value];
      }
    }

    /** `setNotificationOpenedHandler(callback)`: replaces the stored callback. */
    method SetNotificationOpenedHandler(callback: Callback)
      requires Valid()
      modifies this`notificationOpenedCallback
      ensures Valid()
      ensures OpenedChannel() == ColdStart.Step(old(OpenedChannel()), ColdStart.SetHandler(callback)).channel
      ensures notificationOpenedCallback == Some(callback)
    {
      notificationOpenedCallback := Some(callback);
    }

    /** `initNotificationOpenedHandlerParams()`: marks the handler ready and
        delivers the buffered notification, if any, once, then empties the
        buffer. */
    method InitNotificationOpenedHandlerParams()
      requires Valid()
      requires ColdStart.CanStep(OpenedChannel(), ColdStart.InitParams)
      modifies this`hasSetNotificationOpenedHandler, this`coldStartNotificationResult, this`openedDeliveries
      ensures Valid()
      ensures OpenedChannel() == ColdStart.Step(old(OpenedChannel()), ColdStart.InitParams).channel
      ensures openedDeliveries ==
                old(openedDeliveries) + ColdStart.Step(old(OpenedChannel()), ColdStart.InitParams).delivered
      ensures hasSetNotificationOpenedHandler && coldStartNotificationResult.None?
      ensures old(coldStartNotificationResult).Some? ==>
                openedDeliveries == old(openedDeliveries) +
                  [ColdStart.Delivery(notificationOpenedCallback.value, old(coldStartNotificationResult).value)]
      ensures old(coldStartNotificationResult).None? ==> openedDeliveries == old(openedDeliveries)
    {
      hasSetNotificationOpenedHandler := true;
      if coldStartNotificationResult.Some? {
        NotificationOpened(coldStartNotificationResult.value);
        coldStartNotificationResult := None;
      }
    }

    /** `notificationOpened(result)`, called by the SDK: before the handler
        is ready the notification is buffered, replacing an earlier one, and
        nothing is delivered; afterwards it goes straight to the stored
        callback, which must not have been invoked before. */
    method NotificationOpened(result: Object)
      requires ColdStart.OneShot(Opened(), ColdStart.Arrive(result))
      modifies this`coldStartNotificationResult, this`openedDeliveries
      ensures old(Valid()) ==> Valid()
      ensures OpenedChannel() == ColdStart.Step(old(OpenedChannel()), ColdStart.Arrive(result)).channel
      ensures openedDeliveries ==
                old(openedDeliveries) + ColdStart.Step(old(OpenedChannel()), ColdStart.Arrive(result)).delivered
      ensures !hasSetNotificationOpenedHandler ==>
                coldStartNotificationResult == Some(result) && openedDeliveries == old(openedDeliveries)
      ensures hasSetNotificationOpenedHandler ==>
                coldStartNotificationResult == old(coldStartNotificationResult)
                && openedDeliveries == old(openedDeliveries) + [ColdStart.Delivery(notificationOpenedCallback.value, result)]
    {
      if !hasSetNotificationOpenedHandler {
        coldStartNotificationResult := Some(result);
        return;
      }
      openedDeliveries := openedDeliveries + [ColdStart.Delivery(notificationOpenedCallback.value, result)];
    }

    /** `setInAppMessageClickHandler(callback)`: replaces the stored callback. */
    method SetInAppMessageClickHandler(callback: Callback)
      requires Valid()
      modifies this`inAppMessageClickedCallback
      ensures Valid()
      ensures ClickedChannel() == ColdStart.Step(old(ClickedChannel()), ColdStart.SetHandler(callback)).channel
      ensures inAppMessageClickedCallback == Some(callback)
    {
      inAppMessageClickedCallback := Some(callback);
    }

    /** `initInAppMessageClickHandlerParams()`: marks the handler ready and
        delivers the buffered click, if any, once, then empties the buffer. */
    method InitInAppMessageClickHandlerParams()
      requires Valid()
      requires ColdStart.CanStep(ClickedChannel(), ColdStart.InitParams)
      modifies this`hasSetInAppClickedHandler, this`inAppMessageActionResult, this`clickedDeliveries
      ensures Valid()
      ensures ClickedChannel() == ColdStart.Step(old(ClickedChannel()), ColdStart.InitParams).channel
      ensures clickedDeliveries ==
                old(clickedDeliveries) + ColdStart.Step(old(ClickedChannel()), ColdStart.InitParams).delivered
      ensures hasSetInAppClickedHandler && inAppMessageActionResult.None?
      ensures old(inAppMessageActionResult).Some? ==>
                clickedDeliveries == old(clickedDeliveries) +
                  [ColdStart.Delivery(inAppMessageClickedCallback.value, old(inAppMessageActionResult).value)]
      ensures old(inAppMessageActionResult).None? ==> clickedDeliveries == old(clickedDeliveries)
    {
      hasSetInAppClickedHandler := true;
      if inAppMessageActionResult.Some? {
        InAppMessageClicked(inAppMessageActionResult.value);
        inAppMessageActionResult := None;
      }
    }

    /** `inAppMessageClicked(result)`, called by the SDK: before the handler
        is ready the click is buffered, replacing an earlier one, and nothing
        is delivered; afterwards it goes straight to the stored callback,
        which must not have been invoked before. */
    method InAppMessageClicked(result: Object)
      requires ColdStart.OneShot(Clicked(), ColdStart.Arrive(result))
      modifies this`inAppMessageActionResult, this`clickedDeliveries
      ensures old(Valid()) ==> Valid()
      ensures ClickedChannel() == ColdStart.Step(old(ClickedChannel()), ColdStart.Arrive(result)).channel
      ensures clickedDeliveries ==
                old(clickedDeliveries) + ColdStart.Step(old(ClickedChannel()), ColdStart.Arrive(result)).delivered
      ensures !hasSetInAppClickedHandler ==>
                inAppMessageActionResult == Some(result) && clickedDeliveries == old(clickedDeliveries)
      ensures hasSetInAppClickedHandler ==>
                inAppMessageActionResult == old(inAppMessageActionResult)
                && clickedDeliveries == old(clickedDeliveries) + [ColdStart.Delivery(inAppMessageClickedCallback.value, result)]
    {
      if !hasSetInAppClickedHandler {
        inAppMessageActionResult := Some(result);
        return;
      }
      clickedDeliveries := clickedDeliveries + [ColdStart.Delivery(inAppMessageClickedCallback.value, result)];
    }
  }

  /** A cold start as a client sees it: a notification opened before the
      application is ready is delivered once, when the application declares
      itself ready, to the callback stored by then; since that callback is
      used up, a later notification is delivered only to a newly stored one. */
  method ColdStartScenario(early: Object, late: Object, c: Callback, d: Callback)
    requires c != d
  {
    var m := new RNOneSignal();
    m.NotificationOpened(early);
    assert m.openedDeliveries == [];
    m.SetNotificationOpenedHandler(c);
    m.InitNotificationOpenedHandlerParams();
    assert m.openedDeliveries == [ColdStart.Delivery(c, early)];
    m.InitNotificationOpenedHandlerParams();
    assert m.openedDeliveries == [ColdStart.Delivery(c, early)];
    m.SetNotificationOpenedHandler(d);
    assert ColdStart.Invoked(m.openedDeliveries) == {c};
    m.NotificationOpened(late);
    assert m.openedDeliveries == [ColdStart.Delivery(c, early), ColdStart.Delivery(d, late)];
  }
}
